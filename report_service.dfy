/**
 * The report service (`TCNReportServiceImpl`): files opaque report payloads into buckets
 * and lists the reports of a bucket. A bucket is a pair of a UTC calendar date and an
 * interval number within that date.
 *
 * The clock is modelled by the instant it returns: each operation that reads the clock
 * takes that instant as the parameter `now`, so one call reads the clock once.
 * The conversions `toUtcLocalDate` and `toInterval` are not part of this model; the service
 * is parameterised by them, and nothing below depends on how they compute.
 */
module Reports {
  import opened Wrappers
  import opened Time
  import opened ReportsDao

  class TCNReportServiceImpl {
    const reportsDao: TCNReportsDao
    /** The UTC calendar date containing an instant. */
    const toUtcLocalDate: Instant -> LocalDate
    /** The interval number of an instant. */
    const toInterval: Instant -> Long

    constructor (reportsDao: TCNReportsDao, toUtcLocalDate: Instant -> LocalDate, toInterval: Instant -> Long)
      ensures this.reportsDao == reportsDao
      ensures this.toUtcLocalDate == toUtcLocalDate && this.toInterval == toInterval
    {
      this.reportsDao := reportsDao;
      this.toUtcLocalDate := toUtcLocalDate;
      this.toInterval := toInterval;
    }

    /**
     * The reports filed under `(date, intervalNumber)`: exactly the store's answer, with any
     * interval number accepted as given. Being a function, it leaves the store unchanged.
     */
    function GetReports(date: LocalDate, intervalNumber: Long): (r: seq<TCNReportRecord>)
      reads reportsDao
      ensures r == reportsDao.QueryReports(date, intervalNumber)
      ensures forall x :: x in r <==> x in reportsDao.records && x.InBucket(date, intervalNumber)
    {
      reportsDao.QueryReports(date, intervalNumber)
    }

    /**
     * The reports of a bucket given with optional parts. A missing date is the UTC date of
     * `now`, a missing interval number the interval of `now`; both come from the same
     * instant. A fully given bucket does not depend on `now` at all.
     */
    function GetReportsOrCurrent(maybeDate: Option<LocalDate>, maybeIntervalNumber: Option<Long>, now: Instant)
      : (r: seq<TCNReportRecord>)
      reads reportsDao
      ensures maybeDate.Some? && maybeIntervalNumber.Some? ==>
        r == GetReports(maybeDate.value, maybeIntervalNumber.value)
      ensures maybeDate.None? && maybeIntervalNumber.None? ==>
        r == GetReports(toUtcLocalDate(now), toInterval(now))
      ensures maybeDate.Some? && maybeIntervalNumber.None? ==>
        r == GetReports(maybeDate.value, toInterval(now))
      ensures maybeDate.None? && maybeIntervalNumber.Some? ==>
        r == GetReports(toUtcLocalDate(now), maybeIntervalNumber.value)
    {
      GetReports(maybeDate.GetOr(toUtcLocalDate(now)), maybeIntervalNumber.GetOr(toInterval(now)))
    }

    /**
     * Files `reportData`, unvalidated, under the bucket of `now`: the date, the interval
     * number and the timestamp all come from that one instant. The store receives exactly
     * one new record, carrying the payload unchanged, and the stored record is returned.
     */
    method SaveReport(reportData: seq<byte>, now: Instant) returns (r: TCNReportRecord)
      modifies reportsDao
      ensures r.reportData == reportData
      ensures r.date == toUtcLocalDate(now) && r.intervalNumber == toInterval(now)
      ensures r.timestamp == now.epochMilli
      ensures reportsDao.records == old(reportsDao.records) + [r]
    {
      r := reportsDao.AddReport(reportData, toUtcLocalDate(now), toInterval(now), now.epochMilli);
    }
  }

  /**
   * With the clock frozen at `now`, listing the current bucket right after a save answers
   * what that bucket held before, followed by the saved record.
   */
  lemma SavedReportListedAtSameInstant(
    service: TCNReportServiceImpl, before: seq<TCNReportRecord>, saved: TCNReportRecord, now: Instant)
    requires service.reportsDao.records == before + [saved]
    requires saved.date == service.toUtcLocalDate(now) && saved.intervalNumber == service.toInterval(now)
    ensures service.GetReportsOrCurrent(None, None, now)
         == RecordsInBucket(before, service.toUtcLocalDate(now), service.toInterval(now)) + [saved]
    ensures saved in service.GetReportsOrCurrent(None, None, now)
  {
    QueryAfterAppend(before, saved, service.toUtcLocalDate(now), service.toInterval(now));
  }

  /** Saving leaves the answer for every bucket other than the saved record's unchanged. */
  lemma SaveLeavesOtherBucketsAlone(
    service: TCNReportServiceImpl, before: seq<TCNReportRecord>, saved: TCNReportRecord,
    date: LocalDate, intervalNumber: Long)
    requires service.reportsDao.records == before + [saved]
    requires !saved.InBucket(date, intervalNumber)
    ensures service.GetReports(date, intervalNumber) == RecordsInBucket(before, date, intervalNumber)
  {
    QueryAfterAppend(before, saved, date, intervalNumber);
  }
}
