/**
 * The read-side queries the back end runs against the collection of
 * inquiries, and the one write (`$set` of status and `updated_at`), as pure
 * functions of a snapshot `db` of the collection in insertion order.
 */
module InquiryQueries {
  import opened Wrappers
  import opened InquiryModel

  /** Some record in `db` carries `id`. */
  predicate HasId(db: seq<Inquiry>, id: Id) {
    exists i :: 0 <= i < |db| && db[i].id == id
  }

  /** No two records share an id. */
  predicate UniqueIds(db: seq<Inquiry>) {
    forall i, j :: 0 <= i < j < |db| ==> db[i].id != db[j].id
  }

  // ---------------------------------------------------------------------
  // find_one({"id": id})
  // ---------------------------------------------------------------------

  /** The position of the first record with `id`, or -1 when there is none. */
  function FindIndex(db: seq<Inquiry>, id: Id): (i: int)
    ensures -1 <= i < |db|
    ensures i >= 0 ==> db[i].id == id && forall j :: 0 <= j < i ==> db[j].id != id
    ensures i == -1 <==> !HasId(db, id)
  {
    if db == [] then -1
    else if db[0].id == id then 0
    else
      var k := FindIndex(db[1..], id);
      assert forall j :: 1 <= j < |db| ==> db[j] == db[1..][j - 1];
      if k < 0 then -1 else k + 1
  }

  /** A lookup depends only on the ids, position by position. */
  lemma {:induction false} FindIndexSameIds(a: seq<Inquiry>, b: seq<Inquiry>, id: Id)
    requires |a| == |b| && forall i :: 0 <= i < |a| ==> a[i].id == b[i].id
    ensures FindIndex(a, id) == FindIndex(b, id)
  {
    if a != [] {
      FindIndexSameIds(a[1..], b[1..], id);
    }
  }

  // ---------------------------------------------------------------------
  // find(query).sort("created_at", -1).limit(limit)
  // ---------------------------------------------------------------------

  /** The `{"status": s}` query, or the empty query `{}` when no status is given. */
  predicate MatchesFilter(r: Inquiry, status: Option<InquiryStatus>) {
    status.None? || r.status == status.value
  }

  /** The records matching the query, each as often as it is stored. */
  function Filter(db: seq<Inquiry>, status: Option<InquiryStatus>): (r: seq<Inquiry>)
    ensures forall x :: multiset(r)[x] == if MatchesFilter(x, status) then multiset(db)[x] else 0
    ensures forall x :: x in r ==> x in db && MatchesFilter(x, status)
    ensures status.None? ==> r == db
  {
    if db == [] then []
    else
      var rest := Filter(db[1..], status);
      assert db == [db[0]] + db[1..];
      if MatchesFilter(db[0], status) then [db[0]] + rest else rest
  }

  /** Newest first: `created_at` never increases along the sequence. */
  predicate SortedDesc(s: seq<Inquiry>) {
    forall i, j :: 0 <= i < j < |s| ==> s[i].createdAt >= s[j].createdAt
  }

  /** The head of a newest-first sequence is at least as new as every element. */
  lemma HeadNewest(s: seq<Inquiry>)
    requires SortedDesc(s) && s != []
    ensures forall y :: y in s ==> y.createdAt <= s[0].createdAt
  {
    forall y | y in s ensures y.createdAt <= s[0].createdAt {
      var j :| 0 <= j < |s| && s[j] == y;
      if j > 0 { assert s[0].createdAt >= s[j].createdAt; }
    }
  }

  /** Putting an element no older than any other in front keeps a sequence newest first. */
  lemma ConsSorted(h: Inquiry, t: seq<Inquiry>)
    requires SortedDesc(t) && forall y :: y in t ==> y.createdAt <= h.createdAt
    ensures SortedDesc([h] + t)
  {
    var r := [h] + t;
    forall i, j | 0 <= i < j < |r| ensures r[i].createdAt >= r[j].createdAt {
      assert r[j] == t[j - 1];
      if i > 0 { assert r[i] == t[i - 1]; } else { assert t[j - 1] in t; }
    }
  }

  /** The tail of a newest-first sequence is newest first. */
  lemma TailSorted(s: seq<Inquiry>)
    requires SortedDesc(s) && s != []
    ensures SortedDesc(s[1..])
  {
    var t := s[1..];
    forall i, j | 0 <= i < j < |t| ensures t[i].createdAt >= t[j].createdAt {
      assert t[i] == s[i + 1] && t[j] == s[j + 1];
    }
  }

  /** Places `x` before the first element that is not newer than it. */
  function InsertDesc(x: Inquiry, s: seq<Inquiry>): (r: seq<Inquiry>)
    requires SortedDesc(s)
    ensures SortedDesc(r)
    ensures multiset(r) == multiset(s) + multiset{x}
    ensures forall y :: y in r ==> y == x || y in s
  {
    if s == [] then [x]
    else if s[0].createdAt <= x.createdAt then
      HeadNewest(s);
      ConsSorted(x, s);
      [x] + s
    else
      TailSorted(s);
      var rest := InsertDesc(x, s[1..]);
      InsertBehindHead(x, s, rest);
      [s[0]] + rest
  }

  /**
   * When `x` is older than the head, the head stays in front of the
   * insertion into the tail, and the result is newest first.
   */
  lemma InsertBehindHead(x: Inquiry, s: seq<Inquiry>, rest: seq<Inquiry>)
    requires SortedDesc(s) && s != [] && x.createdAt < s[0].createdAt
    requires SortedDesc(rest) && multiset(rest) == multiset(s[1..]) + multiset{x}
    requires forall y :: y in rest ==> y == x || y in s[1..]
    ensures SortedDesc([s[0]] + rest)
    ensures multiset([s[0]] + rest) == multiset(s) + multiset{x}
    ensures forall y :: y in [s[0]] + rest ==> y == x || y in s
  {
    HeadNewest(s);
    assert forall y :: y in s[1..] ==> y in s;
    ConsSorted(s[0], rest);
    assert s == [s[0]] + s[1..];
  }

  /** `sort("created_at", -1)`; ties keep insertion order, which the contract does not promise. */
  function SortByCreatedDesc(s: seq<Inquiry>): (r: seq<Inquiry>)
    ensures SortedDesc(r)
    ensures multiset(r) == multiset(s)
  {
    if s == [] then []
    else
      assert s == [s[0]] + s[1..];
      InsertDesc(s[0], SortByCreatedDesc(s[1..]))
  }

  /** Nothing in `all` that `kept` leaves out is newer than the last element kept. */
  predicate NoNewerLeftOut(all: seq<Inquiry>, kept: seq<Inquiry>) {
    |kept| > 0 ==>
      forall x :: x in multiset(all) - multiset(kept) ==> x.createdAt <= kept[|kept| - 1].createdAt
  }

  /** Cutting a sequence in two splits its multiset in two. */
  lemma PrefixSplit(a: seq<Inquiry>, n: nat)
    requires n <= |a|
    ensures multiset(a) == multiset(a[..n]) + multiset(a[n..])
    ensures multiset(a[..n]) <= multiset(a)
    ensures multiset(a) - multiset(a[..n]) == multiset(a[n..])
  {
    assert a == a[..n] + a[n..];
  }

  /** In a newest-first sequence nothing after position n - 1 is newer than the element there. */
  lemma DroppedNotNewer(sorted: seq<Inquiry>, n: nat)
    requires SortedDesc(sorted) && 0 < n <= |sorted|
    ensures forall x: Inquiry :: x in multiset(sorted[n..]) ==> x.createdAt <= sorted[n - 1].createdAt
  {
    var dropped := sorted[n..];
    forall x: Inquiry | x in multiset(dropped) ensures x.createdAt <= sorted[n - 1].createdAt {
      assert x in dropped;
      var j :| 0 <= j < |dropped| && dropped[j] == x;
      assert sorted[n + j] == x;
    }
  }

  /**
   * The first n elements of a newest-first arrangement of `s`: still newest
   * first, drawn from `s`, all of `s` when n is its size, and no element left
   * behind is newer than the last one kept.
   */
  lemma SortedPrefix(sorted: seq<Inquiry>, s: seq<Inquiry>, n: nat)
    requires SortedDesc(sorted) && multiset(sorted) == multiset(s) && n <= |sorted|
    ensures |sorted| == |s|
    ensures SortedDesc(sorted[..n])
    ensures multiset(sorted[..n]) <= multiset(s)
    ensures n == |s| ==> multiset(sorted[..n]) == multiset(s)
    ensures NoNewerLeftOut(s, sorted[..n])
  {
    assert |sorted| == |s| by { assert |multiset(sorted)| == |multiset(s)|; }
    var kept := sorted[..n];
    PrefixOrdered(sorted, n);
    PrefixSplit(sorted, n);
    if n > 0 {
      DroppedNotNewer(sorted, n);
      var last := kept[|kept| - 1];
      assert last == sorted[n - 1];
      forall x: Inquiry | x in multiset(s) - multiset(kept) ensures x.createdAt <= last.createdAt {
        assert x in multiset(sorted[n..]);
      }
    }
    if n == |s| {
      assert kept == sorted;
    }
  }

  /** A prefix of a newest-first sequence is newest first. */
  lemma PrefixOrdered(sorted: seq<Inquiry>, n: nat)
    requires SortedDesc(sorted) && n <= |sorted|
    ensures SortedDesc(sorted[..n])
  {
    var kept := sorted[..n];
    forall i, j | 0 <= i < j < |kept| ensures kept[i].createdAt >= kept[j].createdAt {
      assert kept[i] == sorted[i] && kept[j] == sorted[j];
    }
  }

  /**
   * The listing query: the matching records, newest first, at most `limit` of
   * them; when it is cut short, every matching record left out is no newer
   * than the last one returned.
   */
  function ListQuery(db: seq<Inquiry>, status: Option<InquiryStatus>, limit: nat): (r: seq<Inquiry>)
    ensures |r| == if limit < |Filter(db, status)| then limit else |Filter(db, status)|
    ensures SortedDesc(r)
    ensures forall x :: x in r ==> x in db && MatchesFilter(x, status)
    ensures multiset(r) <= multiset(Filter(db, status))
    ensures limit >= |Filter(db, status)| ==> multiset(r) == multiset(Filter(db, status))
    ensures NoNewerLeftOut(Filter(db, status), r)
  {
    var matching := Filter(db, status);
    var sorted := SortByCreatedDesc(matching);
    var n := if limit < |sorted| then limit else |sorted|;
    SortedPrefix(sorted, matching, n);
    var r := sorted[..n];
    assert forall x :: x in r ==> x in multiset(r);
    r
  }

  // ---------------------------------------------------------------------
  // count_documents(...)
  // ---------------------------------------------------------------------

  /** count_documents({"status": st}) */
  function CountStatus(db: seq<Inquiry>, st: InquiryStatus): (n: nat)
    ensures n <= |db|
  {
    if db == [] then 0
    else (if db[0].status == st then 1 else 0) + CountStatus(db[1..], st)
  }

  /** count_documents({"inspection_type": t}) */
  function CountType(db: seq<Inquiry>, t: InspectionType): (n: nat)
    ensures n <= |db|
  {
    if db == [] then 0
    else (if db[0].inspectionType == t then 1 else 0) + CountType(db[1..], t)
  }

  /** count_documents({"created_at": {"$gte": since}}) */
  function CountSince(db: seq<Inquiry>, since: int): (n: nat)
    ensures n <= |db|
    ensures n == |db| <==> forall i :: 0 <= i < |db| ==> db[i].createdAt >= since
  {
    if db == [] then 0
    else
      var rest := CountSince(db[1..], since);
      assert forall i :: 1 <= i < |db| ==> db[i] == db[1..][i - 1];
      (if db[0].createdAt >= since then 1 else 0) + rest
  }

  /**
   * The per-status count of the statistics is the number of records a
   * listing filtered by that status has when no limit cuts it short.
   */
  lemma {:induction false} CountStatusIsFilterSize(db: seq<Inquiry>, st: InquiryStatus)
    ensures CountStatus(db, st) == |Filter(db, Some(st))|
  {
    if db != [] {
      CountStatusIsFilterSize(db[1..], st);
    }
  }

  /** Every record has exactly one of the five statuses, so the per-status counts add up to the size. */
  lemma {:induction false} StatusCountsSum(db: seq<Inquiry>)
    ensures CountStatus(db, New) + CountStatus(db, Contacted) + CountStatus(db, Scheduled)
            + CountStatus(db, Completed) + CountStatus(db, Cancelled) == |db|
  {
    if db != [] {
      StatusCountsSum(db[1..]);
    }
  }

  /** Every record has exactly one of the two inspection types. */
  lemma {:induction false} TypeCountsSum(db: seq<Inquiry>)
    ensures CountType(db, PrePurchase) + CountType(db, NewHome) == |db|
  {
    if db != [] {
      TypeCountsSum(db[1..]);
    }
  }

  // ---------------------------------------------------------------------
  // update_one({"id": id}, {"$set": {"status": s, "updated_at": now}})
  // ---------------------------------------------------------------------

  /** The first record with `id` gets status `s` and `updated_at` `now`. */
  function SetStatus(db: seq<Inquiry>, id: Id, s: InquiryStatus, now: int): (r: seq<Inquiry>)
    ensures |r| == |db|
  {
    if db == [] then []
    else if db[0].id == id then [db[0].(status := s, updatedAt := now)] + db[1..]
    else [db[0]] + SetStatus(db[1..], id, s, now)
  }

  /**
   * Position by position: the matched record has only its status and
   * `updated_at` replaced, every other record is unchanged, and without a
   * match the collection is unchanged.
   */
  lemma {:induction false} SetStatusAt(db: seq<Inquiry>, id: Id, s: InquiryStatus, now: int)
    ensures forall i :: 0 <= i < |db| ==>
      SetStatus(db, id, s, now)[i]
        == if i == FindIndex(db, id) then db[i].(status := s, updatedAt := now) else db[i]
    ensures !HasId(db, id) ==> SetStatus(db, id, s, now) == db
  {
    if db != [] && db[0].id != id {
      SetStatusAt(db[1..], id, s, now);
      var rest := SetStatus(db[1..], id, s, now);
      var r := SetStatus(db, id, s, now);
      assert r == [db[0]] + rest;
      var k' := FindIndex(db[1..], id);
      assert FindIndex(db, id) == if k' < 0 then -1 else k' + 1;
      forall i | 0 <= i < |db|
        ensures r[i] == if i == FindIndex(db, id) then db[i].(status := s, updatedAt := now) else db[i]
      {
        if i > 0 {
          assert r[i] == rest[i - 1] && db[i] == db[1..][i - 1];
        }
      }
      if !HasId(db, id) {
        forall j | 0 <= j < |db[1..]| ensures db[1..][j].id != id {
          assert db[1..][j] == db[j + 1];
        }
      }
    }
  }

  /** The update touches only status and `updated_at`: the id, the creation stamp and the content stay. */
  lemma SetStatusKeepsFields(db: seq<Inquiry>, id: Id, s: InquiryStatus, now: int, i: nat)
    requires i < |db|
    ensures var r := SetStatus(db, id, s, now);
      && r[i].id == db[i].id && r[i].createdAt == db[i].createdAt
      && CreateFields(r[i]) == CreateFields(db[i])
  {
    SetStatusAt(db, id, s, now);
  }

  /**
   * Repeating the update with the same status matches the same record again
   * (so it succeeds again) and leaves the store as one update at the later time.
   */
  lemma SetStatusIdempotent(db: seq<Inquiry>, id: Id, s: InquiryStatus, t1: int, t2: int)
    ensures FindIndex(SetStatus(db, id, s, t1), id) == FindIndex(db, id)
    ensures SetStatus(SetStatus(db, id, s, t1), id, s, t2) == SetStatus(db, id, s, t2)
  {
    var once := SetStatus(db, id, s, t1);
    SetStatusAt(db, id, s, t1);
    FindIndexSameIds(once, db, id);
    SetStatusAt(once, id, s, t2);
    SetStatusAt(db, id, s, t2);
  }

  /** Counting a sequence with a first element: that element, then the rest. */
  lemma CountStatusCons(x: Inquiry, t: seq<Inquiry>, st: InquiryStatus)
    ensures CountStatus([x] + t, st) == (if x.status == st then 1 else 0) + CountStatus(t, st)
  {
    assert ([x] + t)[1..] == t;
  }

  /** The update moves at most one record from its old status bucket into the bucket of `s`. */
  lemma {:induction false} SetStatusCounts(db: seq<Inquiry>, id: Id, s: InquiryStatus, now: int, st: InquiryStatus)
    ensures var k := FindIndex(db, id);
      CountStatus(SetStatus(db, id, s, now), st)
        == CountStatus(db, st)
           - (if k >= 0 && db[k].status == st then 1 else 0)
           + (if k >= 0 && s == st then 1 else 0)
  {
    if db == [] {
    } else if db[0].id == id {
      var x := db[0].(status := s, updatedAt := now);
      assert SetStatus(db, id, s, now) == [x] + db[1..];
      assert db == [db[0]] + db[1..];
      CountStatusCons(x, db[1..], st);
      CountStatusCons(db[0], db[1..], st);
    } else {
      var rest := SetStatus(db[1..], id, s, now);
      SetStatusCounts(db[1..], id, s, now, st);
      assert SetStatus(db, id, s, now) == [db[0]] + rest;
      assert db == [db[0]] + db[1..];
      CountStatusCons(db[0], rest, st);
      CountStatusCons(db[0], db[1..], st);
      var k' := FindIndex(db[1..], id);
      assert FindIndex(db, id) == if k' < 0 then -1 else k' + 1;
      assert k' >= 0 ==> db[k' + 1] == db[1..][k'];
    }
  }

  /** The update leaves the per-type counts as they were. */
  lemma {:induction false} SetStatusKeepsTypeCounts(db: seq<Inquiry>, id: Id, s: InquiryStatus, now: int, t: InspectionType)
    ensures CountType(SetStatus(db, id, s, now), t) == CountType(db, t)
  {
    if db != [] && db[0].id != id {
      SetStatusKeepsTypeCounts(db[1..], id, s, now, t);
      var rest := SetStatus(db[1..], id, s, now);
      assert ([db[0]] + rest)[1..] == rest;
    } else if db != [] {
      assert ([db[0].(status := s, updatedAt := now)] + db[1..])[1..] == db[1..];
    }
  }
}
