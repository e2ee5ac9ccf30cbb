/**
 * An abstract, in-memory model of the report store the service delegates to
 * (`TCNReportsDao` and `TCNReportRecord`). The real store is a persistence layer that is
 * not part of this model; what is kept here is its contract: a query returns the records
 * filed under exactly the asked bucket, and an insert adds exactly one record.
 */
module ReportsDao {
  import opened Time

  /** One persisted report: the opaque payload, its bucket, and the exact submission time. */
  datatype TCNReportRecord = TCNReportRecord(
    reportData: seq<byte>,
    date: LocalDate,
    intervalNumber: Long,
    timestamp: Long)
  {
    /** Whether this record is filed under the bucket `(date, intervalNumber)`. */
    predicate InBucket(date': LocalDate, intervalNumber': Long) {
      date == date' && intervalNumber == intervalNumber'
    }
  }

  /** The records of `records` filed under bucket `(date, n)`, in stored order. */
  function RecordsInBucket(records: seq<TCNReportRecord>, date: LocalDate, n: Long): (r: seq<TCNReportRecord>)
    ensures |r| <= |records|
    ensures forall x :: x in r <==> x in records && x.InBucket(date, n)
  {
    if records == [] then []
    else
      var rest := RecordsInBucket(records[1..], date, n);
      if records[0].InBucket(date, n) then [records[0]] + rest else rest
  }

  /** Every record of bucket `(date, n)` is selected as often as it is stored; every other record never. */
  lemma {:induction false} RecordsInBucketCounts(records: seq<TCNReportRecord>, date: LocalDate, n: Long, x: TCNReportRecord)
    ensures multiset(RecordsInBucket(records, date, n))[x] == if x.InBucket(date, n) then multiset(records)[x] else 0
  {
    if records != [] {
      RecordsInBucketCounts(records[1..], date, n, x);
      assert records == [records[0]] + records[1..];
    }
  }

  /** Selecting a bucket distributes over concatenation of the stored records. */
  lemma {:induction false} RecordsInBucketAppend(a: seq<TCNReportRecord>, b: seq<TCNReportRecord>, date: LocalDate, n: Long)
    ensures RecordsInBucket(a + b, date, n) == RecordsInBucket(a, date, n) + RecordsInBucket(b, date, n)
  {
    if a == [] {
      assert a + b == b;
    } else {
      assert (a + b)[0] == a[0];
      assert (a + b)[1..] == a[1..] + b;
      RecordsInBucketAppend(a[1..], b, date, n);
    }
  }

  /**
   * Appending one record changes the answer for its own bucket by exactly that record,
   * added last, and leaves the answer for every other bucket as it was.
   */
  lemma QueryAfterAppend(records: seq<TCNReportRecord>, added: TCNReportRecord, date: LocalDate, n: Long)
    ensures added.InBucket(date, n) ==>
      RecordsInBucket(records + [added], date, n) == RecordsInBucket(records, date, n) + [added]
    ensures !added.InBucket(date, n) ==>
      RecordsInBucket(records + [added], date, n) == RecordsInBucket(records, date, n)
  {
    RecordsInBucketAppend(records, [added], date, n);
    assert [added][1..] == [];
  }

  /** The report store: every record it holds, in insertion order. */
  class TCNReportsDao {
    var records: seq<TCNReportRecord>

    /** An empty store. */
    constructor ()
      ensures records == []
    {
      records := [];
    }

    /** All records filed under exactly the bucket `(date, intervalNumber)`; empty if there are none. */
    function QueryReports(date: LocalDate, intervalNumber: Long): (r: seq<TCNReportRecord>)
      reads this
      ensures forall x :: x in r <==> x in records && x.InBucket(date, intervalNumber)
      ensures records == [] ==> r == []
    {
      RecordsInBucket(records, date, intervalNumber)
    }

    /** Persists one record built from the given fields and returns it. */
    method AddReport(reportData: seq<byte>, date: LocalDate, intervalNumber: Long, timestamp: Long)
      returns (r: TCNReportRecord)
      modifies this
      ensures r == TCNReportRecord(reportData, date, intervalNumber, timestamp)
      ensures records == old(records) + [r]
    {
      r := TCNReportRecord(reportData, date, intervalNumber, timestamp);
      records := records + [r];
    }
  }
}
