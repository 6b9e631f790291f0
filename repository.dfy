/**
 * The template and send-log stores (repository.go, repository_gorm.go),
 * modelled as in-memory tables.  Rows are kept in ascending id order, which
 * is the order GORM's `First` consults them in; lookups, the existence
 * check and the list filters are plain functions over the rows, and the
 * paging arithmetic of both `List` methods is a method over integers.
 *
 * A store's write can fail: each store carries the text of the error its
 * `Create` and its `Update` report, if any, as a fixed fault.
 */
module Repository {
  import opened Wrappers
  import opened Errors
  import opened TemplateModel
  import opened SendLogModel

  /** The page size a list falls back to when given none. */
  const DefaultPageSize := 20

  /** `PageResult`: one page of rows and the figures about the whole match. */
  datatype PageResult<T> = PageResult(items: seq<T>, total: nat, page: int, pageSize: int, totalPages: int)

  /** `TemplateFilter`: an empty text means "no condition". */
  datatype TemplateFilter = TemplateFilter(
    triggerCode: string, language: string, status: TemplateStatus, page: int, pageSize: int)

  /**
   * `LogFilter`.  The source's empty status and empty time texts mean "no
   * condition"; here that is `None`.
   */
  datatype LogFilter = LogFilter(
    triggerCode: string, status: Option<SendStatus>,
    startTime: Option<Timestamp>, endTime: Option<Timestamp>,
    page: int, pageSize: int)

  // ---------------------------------------------------------------------
  // Paging (the same code in both List methods)
  // ---------------------------------------------------------------------

  /**
   * A page below 1 becomes 1 and a page size below 1 becomes the default;
   * valid values are kept.  The offset of the page is then never negative.
   */
  method NormalizePaging(page: int, pageSize: int) returns (p: int, size: int)
    ensures p >= 1 && size >= 1
    ensures page >= 1 ==> p == page
    ensures page < 1 ==> p == 1
    ensures pageSize >= 1 ==> size == pageSize
    ensures pageSize < 1 ==> size == DefaultPageSize
    ensures (p - 1) * size >= 0
  {
    p := page;
    if p < 1 {
      p := 1;
    }
    size := pageSize;
    if size < 1 {
      size := DefaultPageSize;
    }
  }

  /**
   * The number of pages: the least count of pages of `pageSize` rows that
   * holds `total` rows.
   */
  method TotalPages(total: nat, pageSize: int) returns (pages: int)
    requires pageSize >= 1
    ensures pages >= 0
    ensures pages * pageSize >= total
    ensures total > 0 ==> (pages - 1) * pageSize < total
    ensures total == 0 ==> pages == 0
  {
    pages := total / pageSize;
    assert total == pages * pageSize + total % pageSize;
    if total % pageSize > 0 {
      pages := pages + 1;
    }
  }

  /** Where page `page` starts, `size` rows to a page. */
  function PageOffset(page: int, size: int): nat
    requires page >= 1 && size >= 1
  {
    MultiplyMonotone(0, page - 1, size);
    (page - 1) * size
  }

  /** The rows of page `page`, `size` rows to a page, in store order. */
  function Window<T>(rows: seq<T>, page: int, size: int): (r: seq<T>)
    requires page >= 1 && size >= 1
    ensures |r| <= size
    ensures PageOffset(page, size) >= |rows| ==> r == []
    ensures PageOffset(page, size) < |rows| ==>
      |r| == if |rows| - PageOffset(page, size) < size then |rows| - PageOffset(page, size) else size
    ensures forall i :: 0 <= i < |r| ==> r[i] == rows[PageOffset(page, size) + i]
  {
    var offset := PageOffset(page, size);
    if offset >= |rows| then []
    else if offset + size <= |rows| then rows[offset..offset + size]
    else rows[offset..]
  }

  /**
   * The paging step of `List`: normalise the request, count the match,
   * cut out the page.
   */
  method Paginate<T>(matched: seq<T>, page: int, pageSize: int) returns (r: PageResult<T>)
    ensures page >= 1 ==> r.page == page
    ensures page < 1 ==> r.page == 1
    ensures pageSize >= 1 ==> r.pageSize == pageSize
    ensures pageSize < 1 ==> r.pageSize == DefaultPageSize
    ensures r.page >= 1 && r.pageSize >= 1
    ensures r.total == |matched|
    ensures r.items == Window(matched, r.page, r.pageSize)
    ensures r.totalPages * r.pageSize >= r.total
    ensures r.total > 0 ==> (r.totalPages - 1) * r.pageSize < r.total
    ensures r.total == 0 ==> r.totalPages == 0
  {
    var p, size := NormalizePaging(page, pageSize);
    var items := Window(matched, p, size);
    var pages := TotalPages(|matched|, size);
    r := PageResult(items, |matched|, p, size, pages);
  }

  /** Past the last page a list is empty; up to it no page is. */
  lemma PagesCoverMatch<T>(matched: seq<T>, r: PageResult<T>, page: int)
    requires r.pageSize >= 1 && r.total == |matched|
    requires r.totalPages * r.pageSize >= r.total
    requires r.total > 0 ==> (r.totalPages - 1) * r.pageSize < r.total
    requires r.total == 0 ==> r.totalPages == 0
    requires page >= 1
    ensures page > r.totalPages ==> Window(matched, page, r.pageSize) == []
    ensures page <= r.totalPages ==> Window(matched, page, r.pageSize) != []
  {
    if page > r.totalPages {
      assert (page - 1) * r.pageSize >= r.totalPages * r.pageSize by {
        MultiplyMonotone(r.totalPages, page - 1, r.pageSize);
      }
    } else {
      assert (page - 1) * r.pageSize <= (r.totalPages - 1) * r.pageSize by {
        MultiplyMonotone(page - 1, r.totalPages - 1, r.pageSize);
      }
    }
  }

  /** Solver aid: multiplying by a non-negative factor keeps the order. */
  lemma MultiplyMonotone(a: int, b: int, c: int)
    requires a <= b && c >= 0
    ensures a * c <= b * c
  {
  }

  // ---------------------------------------------------------------------
  // Row-level queries
  // ---------------------------------------------------------------------

  /** Ids are positive, strictly increasing, and below the next id to issue. */
  ghost predicate TemplateIdsOrdered(rows: seq<Template>, nextId: nat) {
    && nextId >= 1
    && (forall i :: 0 <= i < |rows| ==> 1 <= rows[i].id < nextId)
    && (forall i, j :: 0 <= i < j < |rows| ==> rows[i].id < rows[j].id)
  }

  ghost predicate LogIdsOrdered(rows: seq<SendLogRecord>, nextId: nat) {
    && nextId >= 1
    && (forall i :: 0 <= i < |rows| ==> 1 <= rows[i].id < nextId)
    && (forall i, j :: 0 <= i < j < |rows| ==> rows[i].id < rows[j].id)
  }

  /** `GetByID` on templates: the row with that id, or "template not found". */
  function FindTemplate(rows: seq<Template>, id: nat): (r: Result<Template, Error>)
    ensures r.Success? ==> r.value in rows && r.value.id == id
    ensures r.Failure? ==> r.error == TemplateNotFound && forall i :: 0 <= i < |rows| ==> rows[i].id != id
  {
    if rows == [] then Failure(TemplateNotFound)
    else if rows[0].id == id then Success(rows[0])
    else FindTemplate(rows[1..], id)
  }

  /** Where a template lookup succeeds, the row is that of its position. */
  lemma {:induction false} FindTemplateAt(rows: seq<Template>, nextId: nat, i: nat)
    requires TemplateIdsOrdered(rows, nextId) && i < |rows|
    ensures FindTemplate(rows, rows[i].id) == Success(rows[i])
  {
    if i > 0 {
      assert rows[0].id < rows[i].id;
      assert TemplateIdsOrdered(rows[1..], nextId) by {
        assert forall k :: 0 <= k < |rows[1..]| ==> rows[1..][k] == rows[k + 1];
      }
      FindTemplateAt(rows[1..], nextId, i - 1);
    }
  }

  /** The trigger/language pair a lookup or an existence check names. */
  predicate SamePair(t: Template, triggerCode: string, language: string) {
    t.triggerCode == triggerCode && t.language == language
  }

  /**
   * `GetActiveTemplate`: the first (lowest-id) enabled template of the pair,
   * or "template not found" when the pair has no enabled template.
   */
  function FindActive(rows: seq<Template>, triggerCode: string, language: string): (r: Result<Template, Error>)
    ensures r.Success? ==> r.value in rows && SamePair(r.value, triggerCode, language) && r.value.IsEnabled()
    ensures r.Failure? <==> forall i :: 0 <= i < |rows| ==> !(SamePair(rows[i], triggerCode, language) && rows[i].IsEnabled())
    ensures r.Failure? ==> r.error == TemplateNotFound
  {
    if rows == [] then Failure(TemplateNotFound)
    else if SamePair(rows[0], triggerCode, language) && rows[0].IsEnabled() then Success(rows[0])
    else
      var r := FindActive(rows[1..], triggerCode, language);
      assert r.Failure? ==> forall i :: 1 <= i < |rows| ==> rows[i] == rows[1..][i - 1];
      r
  }

  /** No row before position `k` is an enabled row of the pair. */
  predicate NoActiveBefore(rows: seq<Template>, k: int, triggerCode: string, language: string)
    requires 0 <= k <= |rows|
  {
    forall i :: 0 <= i < k ==> !(SamePair(rows[i], triggerCode, language) && rows[i].IsEnabled())
  }

  /** The active lookup returns the earliest qualifying row. */
  lemma {:induction false} FindActiveFirst(rows: seq<Template>, triggerCode: string, language: string)
    ensures FindActive(rows, triggerCode, language).Success? ==>
              exists k :: 0 <= k < |rows| && rows[k] == FindActive(rows, triggerCode, language).value
                          && NoActiveBefore(rows, k, triggerCode, language)
  {
    if rows != [] && !(SamePair(rows[0], triggerCode, language) && rows[0].IsEnabled()) {
      FindActiveFirst(rows[1..], triggerCode, language);
      var r := FindActive(rows[1..], triggerCode, language);
      if r.Success? {
        var k :| 0 <= k < |rows[1..]| && rows[1..][k] == r.value && NoActiveBefore(rows[1..], k, triggerCode, language);
        assert rows[k + 1] == r.value;
        assert NoActiveBefore(rows, k + 1, triggerCode, language) by {
          forall i | 0 <= i < k + 1
            ensures !(SamePair(rows[i], triggerCode, language) && rows[i].IsEnabled())
          {
            if i > 0 {
              assert rows[i] == rows[1..][i - 1];
            }
          }
        }
      }
    } else if rows != [] {
      assert NoActiveBefore(rows, 0, triggerCode, language);
    }
  }

  /** Rows that disagree with the lookup in any way do not change its result. */
  lemma {:induction false} FindActiveIgnoresOthers(rows: seq<Template>, t: Template, triggerCode: string, language: string)
    requires !(SamePair(t, triggerCode, language) && t.IsEnabled())
    ensures FindActive(rows + [t], triggerCode, language) == FindActive(rows, triggerCode, language)
  {
    if rows != [] {
      assert (rows + [t])[1..] == rows[1..] + [t];
      FindActiveIgnoresOthers(rows[1..], t, triggerCode, language);
    }
  }

  /**
   * `ExistsByTriggerAndLanguage`: some row has the pair and, when
   * `excludeId` is not 0, an id other than it.
   */
  predicate AnyWithPair(rows: seq<Template>, triggerCode: string, language: string, excludeId: nat)
  {
    exists i :: 0 <= i < |rows| && SamePair(rows[i], triggerCode, language) && (excludeId == 0 || rows[i].id != excludeId)
  }

  /** A template store the existence check would find no duplicate in. */
  ghost predicate UniquePairs(rows: seq<Template>) {
    forall i, j :: 0 <= i < j < |rows| ==> !SamePair(rows[j], rows[i].triggerCode, rows[i].language)
  }

  /**
   * In a store without duplicate pairs, a stored template's pair exists,
   * but not once the template's own id is excluded.
   */
  lemma ExistsExceptSelf(rows: seq<Template>, nextId: nat, k: nat)
    requires TemplateIdsOrdered(rows, nextId) && UniquePairs(rows) && k < |rows|
    ensures AnyWithPair(rows, rows[k].triggerCode, rows[k].language, 0)
    ensures !AnyWithPair(rows, rows[k].triggerCode, rows[k].language, rows[k].id)
  {
    forall i | 0 <= i < |rows| && SamePair(rows[i], rows[k].triggerCode, rows[k].language)
      ensures i == k
    {
    }
  }

  /** `GetByID` on logs: the row with that id, or "send log not found". */
  function FindLog(rows: seq<SendLogRecord>, id: nat): (r: Result<SendLogRecord, Error>)
    ensures r.Success? ==> r.value in rows && r.value.id == id
    ensures r.Failure? ==> r.error == SendLogNotFound && forall i :: 0 <= i < |rows| ==> rows[i].id != id
  {
    if rows == [] then Failure(SendLogNotFound)
    else if rows[0].id == id then Success(rows[0])
    else FindLog(rows[1..], id)
  }

  // ---------------------------------------------------------------------
  // List filters
  // ---------------------------------------------------------------------

  /** A template list filter: each non-empty condition must hold. */
  predicate TemplateMatches(t: Template, f: TemplateFilter) {
    && (f.triggerCode == "" || t.triggerCode == f.triggerCode)
    && (f.language == "" || t.language == f.language)
    && (f.status == "" || t.status == f.status)
  }

  /** A log list filter: each given condition must hold. */
  predicate LogMatches(rec: SendLogRecord, f: LogFilter) {
    && (f.triggerCode == "" || rec.triggerCode == f.triggerCode)
    && (f.status.None? || rec.status == f.status.value)
    && (f.startTime.None? || rec.createdAt >= f.startTime.value)
    && (f.endTime.None? || rec.createdAt <= f.endTime.value)
  }

  /** The rows a template filter keeps, in store order. */
  function FilterTemplates(rows: seq<Template>, f: TemplateFilter): (r: seq<Template>)
    ensures |r| <= |rows|
    ensures forall t :: t in r <==> t in rows && TemplateMatches(t, f)
  {
    if rows == [] then []
    else (if TemplateMatches(rows[0], f) then [rows[0]] else []) + FilterTemplates(rows[1..], f)
  }

  /** The rows a log filter keeps, in store order. */
  function FilterLogs(rows: seq<SendLogRecord>, f: LogFilter): (r: seq<SendLogRecord>)
    ensures |r| <= |rows|
    ensures forall rec :: rec in r <==> rec in rows && LogMatches(rec, f)
  {
    if rows == [] then []
    else (if LogMatches(rows[0], f) then [rows[0]] else []) + FilterLogs(rows[1..], f)
  }

  /** With no condition given, a template list sees every row, in order. */
  lemma {:induction false} NoTemplateConditionKeepsAll(rows: seq<Template>, f: TemplateFilter)
    requires f.triggerCode == "" && f.language == "" && f.status == ""
    ensures FilterTemplates(rows, f) == rows
  {
    if rows != [] {
      NoTemplateConditionKeepsAll(rows[1..], f);
      assert [rows[0]] + rows[1..] == rows;
    }
  }

  /** With no condition given, a log list sees every row, in order. */
  lemma {:induction false} NoLogConditionKeepsAll(rows: seq<SendLogRecord>, f: LogFilter)
    requires f.triggerCode == "" && f.status.None? && f.startTime.None? && f.endTime.None?
    ensures FilterLogs(rows, f) == rows
  {
    if rows != [] {
      NoLogConditionKeepsAll(rows[1..], f);
      assert [rows[0]] + rows[1..] == rows;
    }
  }

  /** Adding a condition to a log filter never lets more rows through. */
  lemma {:induction false} LogConditionsNarrow(rows: seq<SendLogRecord>, f: LogFilter, g: LogFilter)
    requires forall rec :: LogMatches(rec, g) ==> LogMatches(rec, f)
    ensures |FilterLogs(rows, g)| <= |FilterLogs(rows, f)|
  {
    if rows != [] {
      LogConditionsNarrow(rows[1..], f, g);
    }
  }

  // ---------------------------------------------------------------------
  // Row replacement (GORM `Save` of a row that is already stored)
  // ---------------------------------------------------------------------

  /** The rows after saving `t` over the row with its id. */
  function ReplaceTemplate(rows: seq<Template>, t: Template): (r: seq<Template>)
    ensures |r| == |rows|
    ensures forall i :: 0 <= i < |r| ==> r[i] == if rows[i].id == t.id then t else rows[i]
  {
    if rows == [] then []
    else [if rows[0].id == t.id then t else rows[0]] + ReplaceTemplate(rows[1..], t)
  }

  /** The rows after saving `rec` over the row with its id. */
  function ReplaceLog(rows: seq<SendLogRecord>, rec: SendLogRecord): (r: seq<SendLogRecord>)
    ensures |r| == |rows|
    ensures forall i :: 0 <= i < |r| ==> r[i] == if rows[i].id == rec.id then rec else rows[i]
  {
    if rows == [] then []
    else [if rows[0].id == rec.id then rec else rows[0]] + ReplaceLog(rows[1..], rec)
  }

  // ---------------------------------------------------------------------
  // The stores
  // ---------------------------------------------------------------------

  /** The template table. */
  class TemplateRepository {
    var rows: seq<Template>
    var nextId: nat
    /** The error `Create` reports, if the store refuses inserts. */
    const createFault: Option<string>
    /** The error `Update` reports, if the store refuses updates. */
    const updateFault: Option<string>

    ghost predicate Valid()
      reads this
    {
      TemplateIdsOrdered(rows, nextId)
    }

    constructor (createFault: Option<string>, updateFault: Option<string>)
      ensures Valid() && rows == []
      ensures this.createFault == createFault && this.updateFault == updateFault
    {
      rows := [];
      nextId := 1;
      this.createFault := createFault;
      this.updateFault := updateFault;
    }

    /** `Create`: stores `t` under the next id and hands back the stored row. */
    method Create(t: Template) returns (r: Result<Template, string>)
      requires Valid()
      modifies this
      ensures Valid()
      ensures createFault.Some? ==> r == Failure(createFault.value) && rows == old(rows) && nextId == old(nextId)
      ensures createFault.None? ==> r == Success(t.(id := old(nextId))) && rows == old(rows) + [r.value]
      ensures createFault.None? ==> nextId == old(nextId) + 1
    {
      if createFault.Some? {
        return Failure(createFault.value);
      }
      var saved := t.(id := nextId);
      rows := rows + [saved];
      nextId := nextId + 1;
      r := Success(saved);
    }

    /**
     * `Update`: saves `t` over the stored row with its id; every other row
     * stays as it was.
     */
    method Update(t: Template) returns (err: Option<string>)
      requires Valid()
      modifies this`rows
      ensures Valid()
      ensures err == updateFault
      ensures updateFault.Some? ==> rows == old(rows)
      ensures updateFault.None? ==> rows == ReplaceTemplate(old(rows), t)
    {
      if updateFault.Some? {
        return updateFault;
      }
      rows := ReplaceTemplate(rows, t);
      assert forall i :: 0 <= i < |rows| ==> rows[i].id == old(rows)[i].id;
      err := None;
    }

    /** `GetByID`. */
    function GetByID(id: nat): (r: Result<Template, Error>)
      reads this
      ensures r.Success? ==> r.value in rows && r.value.id == id
      ensures r.Failure? <==> forall i :: 0 <= i < |rows| ==> rows[i].id != id
      ensures r.Failure? ==> r.error == TemplateNotFound
    {
      var r := FindTemplate(rows, id);
      assert r.Success? ==> exists i :: 0 <= i < |rows| && rows[i].id == id;
      r
    }

    /**
     * `GetActiveTemplate`: the first stored row (in id order, which `First`
     * uses) that is enabled and holds the pair, or "template not found".
     */
    function GetActiveTemplate(triggerCode: string, language: string): (r: Result<Template, Error>)
      reads this
      ensures r.Success? ==> exists k :: 0 <= k < |rows| && rows[k] == r.value && SamePair(rows[k], triggerCode, language)
                                          && rows[k].IsEnabled() && NoActiveBefore(rows, k, triggerCode, language)
      ensures r.Failure? <==> forall i :: 0 <= i < |rows| ==> !(SamePair(rows[i], triggerCode, language) && rows[i].IsEnabled())
      ensures r.Failure? ==> r.error == TemplateNotFound
      ensures r == FindActive(rows, triggerCode, language)
    {
      FindActiveFirst(rows, triggerCode, language);
      FindActive(rows, triggerCode, language)
    }

    /** `ExistsByTriggerAndLanguage`. */
    predicate ExistsByTriggerAndLanguage(triggerCode: string, language: string, excludeId: nat)
      reads this
      ensures excludeId == 0 ==>
        (ExistsByTriggerAndLanguage(triggerCode, language, excludeId) <==>
         exists i :: 0 <= i < |rows| && SamePair(rows[i], triggerCode, language))
      ensures ExistsByTriggerAndLanguage(triggerCode, language, excludeId) ==>
        ExistsByTriggerAndLanguage(triggerCode, language, 0)
    {
      AnyWithPair(rows, triggerCode, language, excludeId)
    }

    /** `List`: the filtered rows, one page of them, and the page figures. */
    method List(f: TemplateFilter) returns (r: PageResult<Template>)
      ensures r.page >= 1 && r.pageSize >= 1
      ensures r.total == |FilterTemplates(rows, f)|
      ensures r.items == Window(FilterTemplates(rows, f), r.page, r.pageSize)
      ensures forall t :: t in r.items ==> t in rows && TemplateMatches(t, f)
      ensures f.page >= 1 ==> r.page == f.page
      ensures f.pageSize >= 1 ==> r.pageSize == f.pageSize
      ensures f.page < 1 ==> r.page == 1
      ensures f.pageSize < 1 ==> r.pageSize == DefaultPageSize
      ensures r.totalPages * r.pageSize >= r.total
      ensures r.total > 0 ==> (r.totalPages - 1) * r.pageSize < r.total
      ensures r.total == 0 ==> r.totalPages == 0
    {
      var matched := FilterTemplates(rows, f);
      r := Paginate(matched, f.page, f.pageSize);
      assert forall t :: t in r.items ==> t in matched;
    }
  }

  /** The send-log table. */
  class SendLogRepository {
    var rows: seq<SendLogRecord>
    var nextId: nat
    /** The error `Create` reports, if the store refuses inserts. */
    const createFault: Option<string>
    /** The error `Update` reports, if the store refuses updates. */
    const updateFault: Option<string>

    ghost predicate Valid()
      reads this
    {
      LogIdsOrdered(rows, nextId)
    }

    constructor (createFault: Option<string>, updateFault: Option<string>)
      ensures Valid() && rows == []
      ensures this.createFault == createFault && this.updateFault == updateFault
    {
      rows := [];
      nextId := 1;
      this.createFault := createFault;
      this.updateFault := updateFault;
    }

    /**
     * `Create`: gives the entry the next id and the creation time `now`, and
     * stores it.  A refused insert changes nothing.
     */
    method Create(log: SendLog, now: Timestamp) returns (err: Option<string>)
      requires Valid()
      modifies this, log`id, log`createdAt
      ensures Valid()
      ensures err == createFault
      ensures createFault.Some? ==> rows == old(rows) && nextId == old(nextId) && log.Record() == old(log.Record())
      ensures createFault.None? ==> && log.Record() == old(log.Record()).(id := old(nextId), createdAt := now)
                                    && rows == old(rows) + [log.Record()]
                                    && nextId == old(nextId) + 1
    {
      if createFault.Some? {
        return createFault;
      }
      log.id := nextId;
      log.createdAt := now;
      rows := rows + [log.Record()];
      nextId := nextId + 1;
      err := None;
    }

    /** `Update`: saves the entry over the stored row with its id. */
    method Update(log: SendLog) returns (err: Option<string>)
      requires Valid()
      modifies this`rows
      ensures Valid()
      ensures err == updateFault
      ensures updateFault.Some? ==> rows == old(rows)
      ensures updateFault.None? ==> rows == ReplaceLog(old(rows), log.Record())
    {
      if updateFault.Some? {
        return updateFault;
      }
      rows := ReplaceLog(rows, log.Record());
      assert forall i :: 0 <= i < |rows| ==> rows[i].id == old(rows)[i].id;
      err := None;
    }

    /** `GetByID`. */
    function GetByID(id: nat): (r: Result<SendLogRecord, Error>)
      reads this
      ensures r.Success? ==> r.value in rows && r.value.id == id
      ensures r.Failure? <==> forall i :: 0 <= i < |rows| ==> rows[i].id != id
      ensures r.Failure? ==> r.error == SendLogNotFound
    {
      var r := FindLog(rows, id);
      assert r.Success? ==> exists i :: 0 <= i < |rows| && rows[i].id == id;
      r
    }

    /** `List`: the filtered rows, one page of them, and the page figures. */
    method List(f: LogFilter) returns (r: PageResult<SendLogRecord>)
      ensures r.page >= 1 && r.pageSize >= 1
      ensures r.total == |FilterLogs(rows, f)|
      ensures r.items == Window(FilterLogs(rows, f), r.page, r.pageSize)
      ensures forall rec :: rec in r.items ==> rec in rows && LogMatches(rec, f)
      ensures f.page >= 1 ==> r.page == f.page
      ensures f.pageSize >= 1 ==> r.pageSize == f.pageSize
      ensures f.page < 1 ==> r.page == 1
      ensures f.pageSize < 1 ==> r.pageSize == DefaultPageSize
      ensures r.totalPages * r.pageSize >= r.total
      ensures r.total > 0 ==> (r.totalPages - 1) * r.pageSize < r.total
      ensures r.total == 0 ==> r.totalPages == 0
    {
      var matched := FilterLogs(rows, f);
      r := Paginate(matched, f.page, f.pageSize);
      assert forall rec :: rec in r.items ==> rec in matched;
    }
  }
}
