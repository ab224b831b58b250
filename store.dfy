/**
 * The `contact_inquiries` collection and the endpoints that use it: create,
 * list, get, update status and statistics. The collection is a sequence of
 * records in insertion order held by an `InquiryStore` object; the clock is
 * the `now` argument (integer seconds) and uuid4 is a counter.
 */
module Store {
  import opened Wrappers
  import opened InquiryModel
  import opened InquiryQueries

  /** The errors the endpoints answer with (HTTP 422, 422, 404, 500). */
  datatype ApiError =
    | ValidationError(fields: seq<PayloadField>)
    | InvalidStatus
    | NotFound
    | InternalError

  /** The HTTP status code each error is answered with. */
  function HttpStatus(e: ApiError): int {
    match e
    case ValidationError(_) => 422
    case InvalidStatus => 422
    case NotFound => 404
    case InternalError => 500
  }

  /** `ContactInquiryResponse` */
  datatype CreateResponse = CreateResponse(id: Id, message: string, status: string)

  /** The answer of a successful status update: `"success"` and the status set. */
  datatype UpdateResponse = UpdateResponse(newStatus: InquiryStatus, status: string)

  /** The statistics object; breakdowns are keyed by the enum values. */
  datatype Stats = Stats(
    totalInquiries: nat,
    statusBreakdown: map<string, nat>,
    inspectionTypeBreakdown: map<string, nat>,
    recentInquiries7Days: nat)

  const SubmittedMessage: string :=
    "Your inspection request has been submitted successfully! We'll contact you within 2 hours to confirm your appointment."
  const Success: string := "success"
  const DefaultLimit: nat := 50
  const SevenDays: int := 7 * 24 * 60 * 60

  /** The JSON keys of the two breakdowns, in enum order. */
  const StatusKeys: seq<string> :=
    [StatusValue(New), StatusValue(Contacted), StatusValue(Scheduled), StatusValue(Completed), StatusValue(Cancelled)]
  const TypeKeys: seq<string> := [TypeValue(PrePurchase), TypeValue(NewHome)]

  /** The sum of the counts stored under `keys`. */
  function BreakdownSum(m: map<string, nat>, keys: seq<string>): int
    requires forall k :: k in keys ==> k in m
  {
    if keys == [] then 0 else m[keys[0]] + BreakdownSum(m, keys[1..])
  }

  /** A status breakdown that counts `db` sums to its size: every record has one status. */
  lemma StatusBreakdownTotal(m: map<string, nat>, db: seq<Inquiry>)
    requires forall st :: StatusValue(st) in m && m[StatusValue(st)] == CountStatus(db, st)
    ensures forall k :: k in StatusKeys ==> k in m
    ensures BreakdownSum(m, StatusKeys) == |db|
  {
    assert m[StatusValue(New)] == CountStatus(db, New);
    assert m[StatusValue(Contacted)] == CountStatus(db, Contacted);
    assert m[StatusValue(Scheduled)] == CountStatus(db, Scheduled);
    assert m[StatusValue(Completed)] == CountStatus(db, Completed);
    assert m[StatusValue(Cancelled)] == CountStatus(db, Cancelled);
    var k1 := StatusKeys[1..];
    var k2 := k1[1..];
    var k3 := k2[1..];
    var k4 := k3[1..];
    assert k4 == [StatusValue(Cancelled)] && k4[1..] == [];
    assert BreakdownSum(m, k4) == m[StatusValue(Cancelled)];
    assert BreakdownSum(m, k3) == m[StatusValue(Completed)] + BreakdownSum(m, k4);
    assert BreakdownSum(m, k2) == m[StatusValue(Scheduled)] + BreakdownSum(m, k3);
    assert BreakdownSum(m, k1) == m[StatusValue(Contacted)] + BreakdownSum(m, k2);
    StatusCountsSum(db);
  }

  /** A type breakdown that counts `db` sums to its size: every record has one type. */
  lemma TypeBreakdownTotal(m: map<string, nat>, db: seq<Inquiry>)
    requires forall t :: TypeValue(t) in m && m[TypeValue(t)] == CountType(db, t)
    ensures forall k :: k in TypeKeys ==> k in m
    ensures BreakdownSum(m, TypeKeys) == |db|
  {
    assert m[TypeValue(PrePurchase)] == CountType(db, PrePurchase);
    assert m[TypeValue(NewHome)] == CountType(db, NewHome);
    var k1 := TypeKeys[1..];
    assert k1 == [TypeValue(NewHome)] && k1[1..] == [];
    assert BreakdownSum(m, k1) == m[TypeValue(NewHome)];
    TypeCountsSum(db);
  }

  /**
   * The status breakdown of the statistics: the loop over the five statuses
   * that stores each one's count under its wire value, zero included.
   */
  method CountEachStatus(db: seq<Inquiry>) returns (m: map<string, nat>)
    ensures forall st :: StatusValue(st) in m && m[StatusValue(st)] == CountStatus(db, st)
    ensures m.Keys == set st | st in AllStatuses :: StatusValue(st)
    ensures forall k :: k in StatusKeys ==> k in m
    ensures BreakdownSum(m, StatusKeys) == |db|
  {
    m := map[];
    for j := 0 to |AllStatuses|
      invariant forall i :: 0 <= i < j ==>
        StatusValue(AllStatuses[i]) in m && m[StatusValue(AllStatuses[i])] == CountStatus(db, AllStatuses[i])
      invariant m.Keys == set i | 0 <= i < j :: StatusValue(AllStatuses[i])
    {
      var st := AllStatuses[j];
      m := m[StatusValue(st) := CountStatus(db, st)];
    }
    forall st
      ensures StatusValue(st) in m && m[StatusValue(st)] == CountStatus(db, st)
    {
        match st
        case New => assert AllStatuses[0] == st;
        case Contacted => assert AllStatuses[1] == st;
        case Scheduled => assert AllStatuses[2] == st;
        case Completed => assert AllStatuses[3] == st;
        case Cancelled => assert AllStatuses[4] == st;
    }
    StatusBreakdownTotal(m, db);
  }

  /**
   * The inspection-type breakdown of the statistics: the loop over the two
   * types that stores each one's count under its wire value, zero included.
   */
  method CountEachType(db: seq<Inquiry>) returns (m: map<string, nat>)
    ensures forall t :: TypeValue(t) in m && m[TypeValue(t)] == CountType(db, t)
    ensures m.Keys == set t | t in AllInspectionTypes :: TypeValue(t)
    ensures forall k :: k in TypeKeys ==> k in m
    ensures BreakdownSum(m, TypeKeys) == |db|
  {
    m := map[];
    for j := 0 to |AllInspectionTypes|
      invariant forall i :: 0 <= i < j ==>
        TypeValue(AllInspectionTypes[i]) in m && m[TypeValue(AllInspectionTypes[i])] == CountType(db, AllInspectionTypes[i])
      invariant m.Keys == set i | 0 <= i < j :: TypeValue(AllInspectionTypes[i])
    {
      var t := AllInspectionTypes[j];
      m := m[TypeValue(t) := CountType(db, t)];
    }
    forall t
      ensures TypeValue(t) in m && m[TypeValue(t)] == CountType(db, t)
    {
        match t
        case PrePurchase => assert AllInspectionTypes[0] == t;
        case NewHome => assert AllInspectionTypes[1] == t;
    }
    TypeBreakdownTotal(m, db);
  }

  class InquiryStore {
    /** The collection, in insertion order. */
    var records: seq<Inquiry>
    /** The fresh-id supply standing for uuid4: every id handed out so far is below it. */
    var nextId: Id
    /** The `EmailStr` validator the payload is checked with. */
    const emailCheck: EmailValidator

    /**
     * Ids are unique and below the fresh-id supply, every stored record
     * passed validation, and every stored address is in normal form, so the
     * `EmailStr` validation that each read repeats accepts it unchanged.
     */
    ghost predicate Valid()
      reads this
    {
      && NormalFormStable(emailCheck)
      && UniqueIds(records)
      && (forall i :: 0 <= i < |records| ==> records[i].id < nextId)
      && (forall i :: 0 <= i < |records| ==> Conforms(records[i]))
      && (forall i :: 0 <= i < |records| ==> emailCheck(records[i].email) == Some(records[i].email))
    }

    constructor (emailCheck: EmailValidator)
      requires NormalFormStable(emailCheck)
      ensures Valid()
      ensures records == [] && this.emailCheck == emailCheck
    {
      records := [];
      nextId := 0;
      this.emailCheck := emailCheck;
    }

    /**
     * POST /api/contact/inquiry. A rejected body answers 422 with the failing
     * fields and leaves the collection as it was; an accepted one appends one
     * record with a fresh id, status `new` and both stamps at `now`, and
     * answers that id with status "success".
     */
    method Create(p: Payload, now: int) returns (r: Result<CreateResponse, ApiError>)
      requires Valid()
      modifies this
      ensures Valid()
      ensures match Validate(p, emailCheck)
        case Err(fields) =>
          && r == Err(ValidationError(fields))
          && records == old(records) && nextId == old(nextId)
        case Ok(c) =>
          && r == Ok(CreateResponse(old(nextId), SubmittedMessage, Success))
          && records == old(records) + [NewInquiry(old(nextId), c, now)]
          && nextId == old(nextId) + 1
      ensures r.Ok? ==> !HasId(old(records), r.value.id) && HasId(records, r.value.id)
      ensures |records| == |old(records)| + (if r.Ok? then 1 else 0)
      ensures r.Err? ==> HttpStatus(r.error) == 422
    {
      var v := Validate(p, emailCheck);
      if v.Err? {
        return Err(ValidationError(v.error));
      }
      var id := nextId;
      NewInquiryFromPayload(p, emailCheck, id, now);
      var inquiry := NewInquiry(id, v.value, now);
      // `ContactInquiry(**inquiry_data)` validates the normalised address again.
      assert emailCheck(inquiry.email) == Some(inquiry.email) by {
        assert emailCheck(p.email.value).Some?;
      }
      records := records + [inquiry];
      nextId := nextId + 1;
      assert records[|records| - 1].id == id;
      r := Ok(CreateResponse(id, SubmittedMessage, Success));
    }

    /**
     * GET /api/contact/inquiries?status=&limit=. A status that is not an enum
     * value answers 422; a negative limit makes the driver's `to_list` fail
     * (500); otherwise the answer is the matching records (all of them when
     * no status is given), newest first, at most `limit` of them. Each is
     * rebuilt as a `ContactInquiry`, whose address validation passes and
     * leaves the stored address as it is.
     */
    function List(status: Option<string>, limit: int): (r: Result<seq<Inquiry>, ApiError>)
      reads this
      requires Valid()
      ensures status.Some? && ParseStatus(status.value).None? ==> r == Err(InvalidStatus)
      ensures (status.None? || ParseStatus(status.value).Some?) && limit < 0 ==> r == Err(InternalError)
      ensures (status.None? || ParseStatus(status.value).Some?) && limit >= 0 ==> r.Ok?
      ensures r.Ok? ==>
        var filter := if status.None? then None else ParseStatus(status.value);
        && |r.value| <= limit
        && SortedDesc(r.value)
        && (forall x :: x in r.value ==> x in records && MatchesFilter(x, filter))
        && multiset(r.value) <= multiset(Filter(records, filter))
        && (|Filter(records, filter)| <= limit ==> multiset(r.value) == multiset(Filter(records, filter)))
        && (|r.value| == limit || |r.value| == |Filter(records, filter)|)
        && NoNewerLeftOut(Filter(records, filter), r.value)
      ensures r.Ok? ==> forall x :: x in r.value ==> emailCheck(x.email) == Some(x.email)
      ensures r.Err? ==> (HttpStatus(r.error) == 422 <==> status.Some? && ParseStatus(status.value).None?)
    {
      var filter := if status.None? then None else ParseStatus(status.value);
      if status.Some? && filter.None? then Err(InvalidStatus)
      else if limit < 0 then Err(InternalError)
      else Ok(ListQuery(records, filter, limit))
    }

    /**
     * The count a status gets in the statistics is the number of records the
     * listing filtered by that status answers, when the limit does not cut it.
     */
    lemma StatusCountIsListSize(st: InquiryStatus, limit: int)
      requires Valid() && limit >= CountStatus(records, st)
      ensures List(Some(StatusValue(st)), limit).Ok?
      ensures |List(Some(StatusValue(st)), limit).value| == CountStatus(records, st)
    {
      CountStatusIsFilterSize(records, st);
      ParseStatusValue(st);
    }

    /**
     * The listing without query parameters: every record, newest first,
     * when there are at most `DefaultLimit` of them, and otherwise the
     * `DefaultLimit` newest.
     */
    lemma DefaultListing()
      requires Valid()
      ensures List(None, DefaultLimit).Ok?
      ensures |List(None, DefaultLimit).value| == if |records| <= DefaultLimit then |records| else DefaultLimit
      ensures |records| <= DefaultLimit ==> multiset(List(None, DefaultLimit).value) == multiset(records)
      ensures NoNewerLeftOut(records, List(None, DefaultLimit).value)
    {
      assert Filter(records, None) == records;
    }

    /**
     * GET /api/contact/inquiry/{id}: the record with that id, or 404. The
     * record is rebuilt as a `ContactInquiry`, whose address validation
     * passes and leaves the stored address as it is.
     */
    function Get(id: Id): (r: Result<Inquiry, ApiError>)
      reads this
      requires Valid()
      ensures r.Err? <==> !HasId(records, id)
      ensures r.Err? ==> r.error == NotFound
      ensures r.Ok? ==> r.value.id == id && r.value in records
      ensures r.Ok? ==> forall i :: 0 <= i < |records| && records[i].id == id ==> records[i] == r.value
      ensures r.Ok? ==> emailCheck(r.value.email) == Some(r.value.email)
      ensures r.Err? ==> HttpStatus(r.error) == 404
    {
      var k := FindIndex(records, id);
      if k < 0 then Err(NotFound) else Ok(records[k])
    }

    /**
     * PATCH /api/contact/inquiry/{id}/status?status=. A status that is not an
     * enum value answers 422 and a missing id 404, both leaving the collection
     * as it was; otherwise the matched record gets the new status and
     * `updated_at` `now`, and nothing else changes. Success depends on the
     * match, not on whether a field changed, so repeating it succeeds again.
     */
    method UpdateStatus(id: Id, status: string, now: int) returns (r: Result<UpdateResponse, ApiError>)
      requires Valid()
      modifies this
      ensures Valid()
      ensures nextId == old(nextId)
      ensures ParseStatus(status).None? ==> r == Err(InvalidStatus) && records == old(records)
      ensures ParseStatus(status).Some? && !HasId(old(records), id) ==>
        r == Err(NotFound) && records == old(records)
      ensures ParseStatus(status).Some? && HasId(old(records), id) ==>
        && r == Ok(UpdateResponse(ParseStatus(status).value, Success))
        && records == SetStatus(old(records), id, ParseStatus(status).value, now)
      ensures |records| == |old(records)|
      ensures r.Ok? ==> HasId(records, id)
      ensures r.Err? ==> HttpStatus(r.error) == if ParseStatus(status).None? then 422 else 404
    {
      var s := ParseStatus(status);
      if s.None? {
        return Err(InvalidStatus);
      }
      var k := FindIndex(records, id);
      ghost var before := records;
      SetStatusAt(before, id, s.value, now);
      if k < 0 {
        return Err(NotFound);
      }
      records := SetStatus(records, id, s.value, now);
      assert records[k].id == id;
      forall i | 0 <= i < |records| ensures Conforms(records[i]) {
        SetStatusKeepsFields(before, id, s.value, now, i);
      }
      r := Ok(UpdateResponse(s.value, Success));
    }

    /**
     * GET /api/contact/stats: the total, a count for each of the five
     * statuses and each of the two types (zero where none match), and the
     * count created at or after `now` minus seven days. Both breakdowns sum
     * to the total, and the recent count is at most the total.
     */
    method GetStats(now: int) returns (s: Stats)
      ensures s.totalInquiries == |records|
      ensures forall st ::
        (StatusValue(st) in s.statusBreakdown && s.statusBreakdown[StatusValue(st)] == CountStatus(records, st))
      ensures s.statusBreakdown.Keys == set st | st in AllStatuses :: StatusValue(st)
      ensures forall t ::
        (TypeValue(t) in s.inspectionTypeBreakdown && s.inspectionTypeBreakdown[TypeValue(t)] == CountType(records, t))
      ensures s.inspectionTypeBreakdown.Keys == set t | t in AllInspectionTypes :: TypeValue(t)
      ensures s.recentInquiries7Days == CountSince(records, now - SevenDays)
      ensures forall k :: k in StatusKeys ==> k in s.statusBreakdown
      ensures BreakdownSum(s.statusBreakdown, StatusKeys) == s.totalInquiries
      ensures forall k :: k in TypeKeys ==> k in s.inspectionTypeBreakdown
      ensures BreakdownSum(s.inspectionTypeBreakdown, TypeKeys) == s.totalInquiries
      ensures s.recentInquiries7Days <= s.totalInquiries
    {
      var total := |records|;
      var statusCounts := CountEachStatus(records);
      var typeCounts := CountEachType(records);
      var recent := CountSince(records, now - SevenDays);
      s := Stats(total, statusCounts, typeCounts, recent);
    }
  }
}
