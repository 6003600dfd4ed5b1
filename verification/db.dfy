/**
 * The record service (db/index.js): the stored collection, the add / list /
 * update / delete operations with their change events and full-set backups,
 * and the vault statistics.
 */
module Db {
  import opened Wrappers
  import opened Dates
  import opened RecordUtils
  import opened Text

  /** The change notifications the service emits, each carrying the affected record. */
  datatype Event = RecordAdded(record: Record) | RecordUpdated(record: Record) | RecordDeleted(record: Record)

  /** What `getVaultStatistics` reports; every field but the counts is display text. */
  datatype VaultStatistics = VaultStatistics(
    total: nat,
    lastModified: string,
    longestName: string,
    longestNameLength: nat,
    earliest: string,
    latest: string)

  /** `toISOString` on an Invalid Date throws a RangeError ("Invalid time value"). */
  datatype StatsError = InvalidTimeValue

  /** The fixed result for an empty store. */
  const NoDataStatistics := VaultStatistics(0, "No data", "None", 0, "N/A", "N/A")

  // ------------------------------------------------------------ lookups

  /**
   * The position of the first record with this id, in store order: the
   * document `findOne({ id })` returns and `deleteOne({ id })` removes.
   */
  function FindFirst(s: seq<Record>, id: int): (r: Option<nat>)
    ensures r.None? <==> forall k :: 0 <= k < |s| ==> s[k].id != id
    ensures r.Some? ==> r.value < |s| && s[r.value].id == id
    ensures r.Some? ==> forall k :: 0 <= k < r.value ==> s[k].id != id
  {
    if s == [] then None
    else if s[0].id == id then Some(0)
    else match FindFirst(s[1..], id)
      case None => None
      case Some(k) => Some(k + 1)
  }

  predicate UniqueIds(s: seq<Record>) {
    forall i, j :: 0 <= i < j < |s| ==> s[i].id != s[j].id
  }

  // ------------------------------------------------------------ listing

  predicate IdsAscending(s: seq<Record>) {
    forall i, j :: 0 <= i < j < |s| ==> s[i].id <= s[j].id
  }

  predicate IdsAtLeast(s: seq<Record>, lo: int) {
    forall x :: x in s ==> lo <= x.id
  }

  lemma {:induction false} IdsAtLeastPermutation(a: seq<Record>, b: seq<Record>, lo: int)
    requires multiset(a) == multiset(b) && IdsAtLeast(b, lo)
    ensures IdsAtLeast(a, lo)
  {
    forall x | x in a ensures lo <= x.id {
      assert x in multiset(b);
    }
  }

  function InsertById(r: Record, s: seq<Record>): (t: seq<Record>)
    requires IdsAscending(s)
    ensures IdsAscending(t)
    ensures multiset(t) == multiset(s) + multiset{r}
  {
    if s == [] then [r]
    else if r.id <= s[0].id then [r] + s
    else
      var rest := InsertById(r, s[1..]);
      assert IdsAtLeast(s[1..] + [r], s[0].id);
      assert multiset(rest) == multiset(s[1..] + [r]);
      IdsAtLeastPermutation(rest, s[1..] + [r], s[0].id);
      var t := [s[0]] + rest;
      assert forall j :: 0 < j < |t| ==> t[j] == rest[j - 1] && t[j] in rest;
      assert multiset(t) == multiset{s[0]} + multiset(rest);
      assert multiset(s) == multiset{s[0]} + multiset(s[1..]) by {
        assert s == [s[0]] + s[1..];
      }
      t
  }

  /** `find().sort({ id: 1 })`: the records by ascending id (records sharing an id keep no promised order). */
  function SortById(s: seq<Record>): (t: seq<Record>)
    ensures IdsAscending(t)
    ensures multiset(t) == multiset(s)
  {
    if s == [] then []
    else
      assert s == [s[0]] + s[1..];
      InsertById(s[0], SortById(s[1..]))
  }

  // --------------------------------------------------------- statistics

  /** The `new Date(createdAt)` of every record, or `None` when one of them is an Invalid Date. */
  function CreatedDates(s: seq<Record>): (r: Option<seq<Date>>)
    ensures r.Some? <==> forall k :: 0 <= k < |s| ==> ParseDate(s[k].createdAt).Some?
    ensures r.Some? ==> |r.value| == |s|
    ensures r.Some? ==> forall k :: 0 <= k < |s| ==> r.value[k] == ParseDate(s[k].createdAt).value
  {
    if s == [] then Some([])
    else match (ParseDate(s[0].createdAt), CreatedDates(s[1..]))
      case (Some(d), Some(ds)) => Some([d] + ds)
      case _ => None
  }

  /** When a record was last written: `updatedAt || createdAt`. */
  function Touched(r: Record): Option<Date> {
    if r.updatedAt.Some? then r.updatedAt else ParseDate(r.createdAt)
  }

  function TouchedDates(s: seq<Record>): (r: Option<seq<Date>>)
    ensures r.Some? <==> forall k :: 0 <= k < |s| ==> Touched(s[k]).Some?
    ensures r.Some? ==> |r.value| == |s|
    ensures r.Some? ==> forall k :: 0 <= k < |s| ==> r.value[k] == Touched(s[k]).value
  {
    if s == [] then Some([])
    else match (Touched(s[0]), TouchedDates(s[1..]))
      case (Some(d), Some(ds)) => Some([d] + ds)
      case _ => None
  }

  /**
   * The `lastModified` text: "Unknown" exactly when some record's last write
   * is an Invalid Date, and otherwise the timestamp of a record's last write
   * that no other record's last write comes after.
   */
  function LastModifiedText(s: seq<Record>): (r: string)
    requires s != []
    ensures r == "Unknown" <==> TouchedDates(s).None?
    ensures TouchedDates(s).Some? ==>
      exists i :: 0 <= i < |s| && Touched(s[i]).Some? && r == FormatTimestamp(Touched(s[i]).value) &&
        forall j :: 0 <= j < |s| ==> Leq(Touched(s[j]).value, Touched(s[i]).value)
  {
    match TouchedDates(s)
    case Some(ds) =>
      var m := Latest(ds);
      var i :| 0 <= i < |ds| && ds[i] == m;
      assert forall j :: 0 <= j < |s| ==> ds[j] in ds;
      assert FormatTimestamp(m)[0] == Pad(m.year, 4)[0];
      FormatTimestamp(m)
    case None => "Unknown"
  }

  /**
   * The name the `forEach` in `getVaultStatistics` settles on: walking the
   * records in order, a name replaces the current one only when strictly longer.
   */
  function FirstLongest(s: seq<Record>): string {
    if s == [] then ""
    else
      var prev := FirstLongest(s[..|s| - 1]);
      var name := s[|s| - 1].name;
      if Utf16Length(name) > Utf16Length(prev) then name else prev
  }

  /**
   * The longest name is no shorter than any name, and, unless every name is
   * empty, it is the name of the first record that reaches that length.
   */
  lemma {:induction false} FirstLongestIsFirstMaximal(s: seq<Record>)
    ensures forall r :: r in s ==> Utf16Length(r.name) <= Utf16Length(FirstLongest(s))
    ensures FirstLongest(s) == "" ==> forall r :: r in s ==> r.name == ""
    ensures FirstLongest(s) != "" ==>
      exists k :: 0 <= k < |s| && s[k].name == FirstLongest(s) &&
        forall j :: 0 <= j < k ==> Utf16Length(s[j].name) < Utf16Length(s[k].name)
  {
    if s != [] {
      var p := s[..|s| - 1];
      var last := s[|s| - 1];
      assert s == p + [last];
      FirstLongestIsFirstMaximal(p);
      if Utf16Length(last.name) > Utf16Length(FirstLongest(p)) {
        var k := |s| - 1;
        assert forall j :: 0 <= j < k ==> s[j] in p;
      } else if FirstLongest(p) != "" {
        var k :| 0 <= k < |p| && p[k].name == FirstLongest(p) &&
          forall j :: 0 <= j < k ==> Utf16Length(p[j].name) < Utf16Length(p[k].name);
        assert s[k] == p[k];
      }
    }
  }

  /**
   * In a non-empty store whose dates all parse, `earliest` and `latest` are
   * the stored `createdAt` texts of a first and a last record, in that order.
   */
  lemma {:induction false} EarliestLatestAreStoredDates(s: seq<Record>)
    requires s != [] && CreatedDates(s).Some?
    ensures var ds := CreatedDates(s).value;
      Leq(Earliest(ds), Latest(ds)) &&
      (exists i :: 0 <= i < |s| && s[i].createdAt == FormatDate(Earliest(ds)) &&
        forall j :: 0 <= j < |s| ==> Leq(Earliest(ds), ParseDate(s[j].createdAt).value)) &&
      (exists i :: 0 <= i < |s| && s[i].createdAt == FormatDate(Latest(ds)) &&
        forall j :: 0 <= j < |s| ==> Leq(ParseDate(s[j].createdAt).value, Latest(ds)))
  {
    var ds := CreatedDates(s).value;
    var lo :| 0 <= lo < |ds| && ds[lo] == Earliest(ds);
    var hi :| 0 <= hi < |ds| && ds[hi] == Latest(ds);
    FormatParse(s[lo].createdAt);
    FormatParse(s[hi].createdAt);
    assert forall j :: 0 <= j < |s| ==> ds[j] in ds;
  }

  // -------------------------------------------------------------- store

  /** Every stored record came through validation: its creation date parses. */
  predicate WellFormed(r: Record) {
    ParseDate(r.createdAt).Some? && (r.updatedAt.Some? ==> ValidDate(r.updatedAt.value))
  }

  /** Well-formed records all have a parseable creation date. */
  lemma WellFormedDatesParse(s: seq<Record>)
    requires forall r :: r in s ==> WellFormed(r)
    ensures CreatedDates(s).Some?
  {
    assert forall k :: 0 <= k < |s| ==> s[k] in s;
  }

  /** The record `addRecord` builds from an accepted candidate. */
  function NewRecord(c: Candidate, now: int): (r: Record)
    requires Acceptable(c)
    ensures WellFormed(r)
  {
    Record(GenerateId(now), c.name.value, c.value.value, c.createdAt.value, None)
  }

  /**
   * The vault: the stored collection in store order, with the events emitted
   * and the backups written so far kept as ghost logs.
   */
  class Vault {
    var records: seq<Record>
    ghost var events: seq<Event>
    ghost var backups: seq<seq<Record>>

    /**
     * Every record is well formed; one backup is written per event, and the
     * latest backup holds exactly the current collection.
     */
    ghost predicate Valid()
      reads this
    {
      && (forall r :: r in records ==> WellFormed(r))
      && |backups| == |events|
      && (backups != [] ==> backups[|backups| - 1] == records)
    }

    constructor ()
      ensures Valid()
      ensures records == [] && events == [] && backups == []
    {
      records, events, backups := [], [], [];
    }

    /**
     * `addRecord`: validate, then insert a record with the clock's id, emit
     * `recordAdded` and back up the full collection. A rejected candidate
     * changes nothing.
     */
    method AddRecord(c: Candidate, now: int) returns (res: Result<Record, ValidationError>)
      requires Valid()
      modifies this
      ensures Valid()
      ensures ValidateRecord(c).Fail? ==>
        && res == Err(ValidateRecord(c).error)
        && records == old(records) && events == old(events) && backups == old(backups)
      ensures ValidateRecord(c).Pass? ==>
        && res == Ok(NewRecord(c, now))
        && res.value.id == now
        && records == old(records) + [res.value]
        && events == old(events) + [RecordAdded(res.value)]
        && backups == old(backups) + [records]
    {
      var check := ValidateRecord(c);
      if check.Fail? {
        return Err(check.error);
      }
      var r := NewRecord(c, now);
      records := records + [r];
      events := events + [RecordAdded(r)];
      backups := backups + [records];
      res := Ok(r);
    }

    /** `listRecords`: every stored record, by ascending id. */
    function ListRecords(): (list: seq<Record>)
      reads this
      ensures IdsAscending(list)
      ensures multiset(list) == multiset(records)
    {
      SortById(records)
    }

    /**
     * `updateRecord`: an unknown id gives `None` and changes nothing; otherwise
     * the first record with the id gets the new name and value (its id and
     * creation date stay), `recordUpdated` is emitted and the collection backed up.
     */
    method UpdateRecord(id: int, newName: string, newValue: string) returns (res: Option<Record>)
      requires Valid()
      modifies this
      ensures Valid()
      ensures FindFirst(old(records), id).None? ==>
        res.None? && records == old(records) && events == old(events) && backups == old(backups)
      ensures FindFirst(old(records), id).Some? ==>
        var k := FindFirst(old(records), id).value;
        && res == Some(old(records)[k].(name := newName, value := newValue))
        && records == old(records)[k := res.value]
        && events == old(events) + [RecordUpdated(res.value)]
        && backups == old(backups) + [records]
    {
      var found := FindFirst(records, id);
      if found.None? {
        return None;
      }
      var k := found.value;
      var updated := records[k].(name := newName, value := newValue);
      assert records[k] in records;
      var changed := records[k := updated];
      assert forall r :: r in changed ==> r == updated || r in records;
      records := changed;
      events := events + [RecordUpdated(updated)];
      backups := backups + [records];
      res := Some(updated);
    }

    /**
     * `deleteRecord`: an unknown id gives `None` and changes nothing; otherwise
     * the first record with the id is removed and returned as it was,
     * `recordDeleted` is emitted and the remaining collection backed up.
     */
    method DeleteRecord(id: int) returns (res: Option<Record>)
      requires Valid()
      modifies this
      ensures Valid()
      ensures FindFirst(old(records), id).None? ==>
        res.None? && records == old(records) && events == old(events) && backups == old(backups)
      ensures FindFirst(old(records), id).Some? ==>
        var k := FindFirst(old(records), id).value;
        && res == Some(old(records)[k])
        && records == old(records)[..k] + old(records)[k + 1..]
        && events == old(events) + [RecordDeleted(res.value)]
        && backups == old(backups) + [records]
    {
      var found := FindFirst(records, id);
      if found.None? {
        return None;
      }
      var k := found.value;
      var removed := records[k];
      var rest := records[..k] + records[k + 1..];
      assert forall r :: r in rest ==> r in records;
      records := rest;
      events := events + [RecordDeleted(removed)];
      backups := backups + [records];
      res := Some(removed);
    }

    /**
     * `getVaultStatistics`: the fixed sentinel for an empty store; an error when
     * a creation date is invalid; otherwise the count, last write, first
     * longest name and the earliest and latest creation dates.
     */
    method GetVaultStatistics() returns (res: Result<VaultStatistics, StatsError>)
      ensures records == [] ==> res == Ok(NoDataStatistics)
      ensures records != [] && CreatedDates(records).None? ==> res == Err(InvalidTimeValue)
      ensures records != [] && CreatedDates(records).Some? ==>
        var ds := CreatedDates(records).value;
        res == Ok(VaultStatistics(
          |records|,
          LastModifiedText(records),
          FirstLongest(records),
          Utf16Length(FirstLongest(records)),
          FormatDate(Earliest(ds)),
          FormatDate(Latest(ds))))
      ensures Valid() ==> res.Ok?
    {
      var data := records;
      if |data| == 0 {
        return Ok(NoDataStatistics);
      }
      var total := |data|;
      var lastModified := LastModifiedText(data);
      var longestName := LongestName(data);
      var dates := CreatedDates(data);
      if Valid() {
        WellFormedDatesParse(data);
      }
      if dates.None? {
        return Err(InvalidTimeValue);
      }
      var earliest := FormatDate(Earliest(dates.value));
      var latest := FormatDate(Latest(dates.value));
      res := Ok(VaultStatistics(total, lastModified, longestName, Utf16Length(longestName), earliest, latest));
    }
  }

  /** The `forEach` over the records that keeps the first strictly longest non-empty name. */
  method LongestName(data: seq<Record>) returns (longest: string)
    ensures longest == FirstLongest(data)
    ensures forall r :: r in data ==> Utf16Length(r.name) <= Utf16Length(longest)
  {
    longest := "";
    for i := 0 to |data|
      invariant longest == FirstLongest(data[..i])
    {
      assert data[..i + 1][..i] == data[..i];
      if data[i].name != "" && Utf16Length(data[i].name) > Utf16Length(longest) {
        longest := data[i].name;
      }
    }
    assert data[..|data|] == data;
    FirstLongestIsFirstMaximal(data);
  }

  // ----------------------------------------------------- id uniqueness

  /** A record whose id exceeds every stored id keeps the ids unique (a clock that moved on). */
  lemma AddKeepsIdsUnique(s: seq<Record>, r: Record)
    requires UniqueIds(s)
    requires forall x :: x in s ==> x.id < r.id
    ensures UniqueIds(s + [r])
  {
    var t := s + [r];
    forall i, j | 0 <= i < j < |t| ensures t[i].id != t[j].id {
      if j == |s| {
        assert t[i] in s;
      }
    }
  }

  /** Two records added within the same clock tick share an id, so ids are not unique. */
  lemma SameTickAddsCollide(s: seq<Record>, c1: Candidate, c2: Candidate, now: int)
    requires Acceptable(c1) && Acceptable(c2)
    ensures !UniqueIds(s + [NewRecord(c1, now)] + [NewRecord(c2, now)])
  {
    var t := s + [NewRecord(c1, now)] + [NewRecord(c2, now)];
    assert t[|s|].id == t[|s| + 1].id;
  }

  /** With unique ids, deleting the first match leaves no record with that id. */
  lemma DeleteRemovesIdWhenUnique(s: seq<Record>, id: int)
    requires UniqueIds(s) && FindFirst(s, id).Some?
    ensures var k := FindFirst(s, id).value;
      forall r :: r in s[..k] + s[k + 1..] ==> r.id != id
  {
    var k := FindFirst(s, id).value;
    forall r | r in s[..k] + s[k + 1..] ensures r.id != id {
      var t := s[..k] + s[k + 1..];
      var i :| 0 <= i < |t| && t[i] == r;
      if i < k {
        assert r == s[i];
      } else {
        assert r == s[i + 1];
      }
    }
  }

  /** As written, a second record with the same id survives the delete and is found next. */
  lemma DeleteKeepsDuplicate(s: seq<Record>, id: int)
    requires FindFirst(s, id).Some?
    requires exists j :: FindFirst(s, id).value < j < |s| && s[j].id == id
    ensures var k := FindFirst(s, id).value;
      FindFirst(s[..k] + s[k + 1..], id).Some?
  {
    var k := FindFirst(s, id).value;
    var j :| k < j < |s| && s[j].id == id;
    var t := s[..k] + s[k + 1..];
    assert t[j - 1] == s[j];
  }

  /** Renaming a record keeps the ids as they were. */
  lemma UpdateKeepsIdsUnique(s: seq<Record>, k: nat, name: string, value: string)
    requires UniqueIds(s) && k < |s|
    ensures UniqueIds(s[k := s[k].(name := name, value := value)])
  {
  }
}
