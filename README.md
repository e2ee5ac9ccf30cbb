# TCN report service: a Dafny model

This project models the report service of the TCN Coalition backend
(`TCNReportServiceImpl`). Clients submit opaque, signed report payloads ("TCN reports").
The service files each one under a *bucket*, which is a pair of a UTC calendar date and
an interval number within that date. Clients then list the reports of a bucket.

The service has two collaborators, a clock and a report store (`TCNReportsDao`). It keeps
no state of its own. The model represents them as follows:

- **Clock.** The clock appears only as the instant it returns. Each operation that reads
  the clock takes that instant as a parameter `now`, so one call reads the clock exactly
  once.
- **Report store.** The store is an in-memory class holding the sequence of stored records
  (`ReportsDao.TCNReportsDao`). Its query returns exactly the records filed under the asked
  bucket. Its insert appends one record and returns it.
- **Time conversions.** `toUtcLocalDate` and `toInterval` are not part of this model. The
  service is parameterised by them as function values, so no interval width or calendar
  rule is assumed. Every property holds for any pair of conversions.
- **Values.** `Long` is a 64-bit newtype. A payload is a sequence of bytes. An `Instant`
  is its epoch milliseconds. A `LocalDate` is only ever compared for equality.

Files:
- `wrappers.dfy`: `Option`, standing for Kotlin's nullable types.
- `time.dfy`: `Long`, `byte`, `Instant`, `LocalDate`.
- `reports_dao.dfy`: the record type and the store model.
- `report_service.dfy`: the service.

Dafny does not allow overloading. The two Kotlin `getReports` overloads are therefore named
`GetReports`, which takes an explicit bucket, and `GetReportsOrCurrent`, which takes
nullable parts plus the clock's instant. Both are functions, so neither can change the
store.

## Model

| member | source | states |
|---|---|---|
| `Reports.TCNReportServiceImpl.constructor` | core/src/main/kotlin/org/coepi/api/v4/reports/TCNReportService.kt:22-25 | The service stores the report store it is given, together with the two time conversions `toUtcLocalDate` and `toInterval`. The clock is not a field. Each operation that reads the clock instead takes the one instant `now` that it reads. |
| `Reports.TCNReportServiceImpl.GetReports` | core/src/main/kotlin/org/coepi/api/v4/reports/TCNReportService.kt:26-30 | The answer is exactly the store's query for `(date, intervalNumber)`. It holds a record iff the store holds it in that bucket. Every interval number is accepted unchanged. The store is not modified. |
| `Reports.TCNReportServiceImpl.GetReportsOrCurrent` | core/src/main/kotlin/org/coepi/api/v4/reports/TCNReportService.kt:32-41 | If both parts are present, the answer equals `GetReports` on them whatever `now` is. A missing date becomes `toUtcLocalDate(now)` and a missing interval becomes `toInterval(now)`, each independently. With both missing, the answer equals `GetReports(toUtcLocalDate(now), toInterval(now))`, using one instant for both. |
| `Reports.TCNReportServiceImpl.SaveReport` | core/src/main/kotlin/org/coepi/api/v4/reports/TCNReportService.kt:44-54 | Every payload is accepted, with no precondition. The returned record carries the payload unchanged. Its date is `toUtcLocalDate(now)`, its interval is `toInterval(now)` and its timestamp is `now` in epoch millis. The store afterwards is the old store plus that one record. |
| `Reports.SavedReportListedAtSameInstant` | core/src/main/kotlin/org/coepi/api/v4/reports/TCNReportService.kt:36-52 | With a frozen clock, listing the current bucket after a save gives the bucket's earlier contents followed by the saved record. In particular, it contains the saved record. |
| `Reports.SaveLeavesOtherBucketsAlone` | core/src/main/kotlin/org/coepi/api/v4/reports/TCNReportService.kt:26-53 | After a save, the listing of every other bucket is what it was before. |
| `ReportsDao.TCNReportsDao.QueryReports` | core/src/main/kotlin/org/coepi/api/v4/reports/TCNReportService.kt:30 | The store contract the service relies on: a query returns a record iff the store holds it under exactly that bucket. An empty store answers with the empty sequence. |
| `ReportsDao.TCNReportsDao.AddReport` | core/src/main/kotlin/org/coepi/api/v4/reports/TCNReportService.kt:48-53 | The store contract for an insert: one record is built from the given fields, appended to the store and returned. |
| `ReportsDao.RecordsInBucket` | core/src/main/kotlin/org/coepi/api/v4/reports/TCNReportService.kt:30 | Selecting a bucket yields a record iff the store holds it under that exact bucket. The result is never longer than the store. |
| `ReportsDao.RecordsInBucketCounts` | core/src/main/kotlin/org/coepi/api/v4/reports/TCNReportService.kt:30 | Selecting a bucket keeps each record of that bucket exactly as many times as it is stored. Every record of any other bucket is dropped. |
| `ReportsDao.RecordsInBucketAppend` | core/src/main/kotlin/org/coepi/api/v4/reports/TCNReportService.kt:30 | Selecting a bucket distributes over concatenation of the stored records, so stored order is kept. |
| `ReportsDao.QueryAfterAppend` | core/src/main/kotlin/org/coepi/api/v4/reports/TCNReportService.kt:48-53 | Appending one record adds exactly that record, last, to the answer for its own bucket. The answer for every other bucket is unchanged. |

## Left out

- The real `TCNReportsDao` and `TCNReportRecord` are not part of this model. They are the
  persistence layer. The store is replaced by the in-memory model above, which keeps
  records in insertion order. The record has no store-assigned identity, because this
  service never reads one. The real `queryReports` promises no order. So the ordered part
  of `SavedReportListedAtSameInstant`, `QueryAfterAppend` and `RecordsInBucketAppend`
  ("followed by", "last", "stored order") holds only for this model store. Their
  order-free part, which records are listed and how often, carries over to any store
  meeting the contract of `QueryReports`.
- A Kotlin `ByteArray` is a mutable array, shared by reference between the caller and the
  stored record. The model's payload is an immutable sequence, so aliasing and later
  mutation of the payload are not captured. The model's `byte` ranges over 0..255, whereas
  a JVM `Byte` ranges over -128..127. The service never inspects the bytes, so neither
  difference affects it.
- The definitions of `toUtcLocalDate` and `toInterval` are not part of this model. They
  depend on `java.time` calendar and zone arithmetic. They stay uninterpreted parameters
  of the service.
- The internals of `java.time.Clock` are left out. Only the instant that each call reads is
  modelled. Sub-millisecond precision of an instant is not modelled, nor are instants
  whose epoch milliseconds overflow a `Long`, where `toEpochMilli` would throw.
- Payload and signature validation is left out because the source does not implement it.
  `SaveReport` accepts every payload, as the source does.
- Failures raised by the clock or the store are left out. The service only lets them
  propagate. Concurrent writes to the same bucket are also left out, because they belong
  to the store.
- HTTP transport, serialisation and process wiring are left out. They are outside the
  service.
- The Kotlin interface `TCNReportService` (lines 10-20) is left out. It only declares the
  three operations modelled on the class.
