/**
 * The JVM value types the report service works with: `Long`, bytes, `java.time.Instant`
 * and `java.time.LocalDate`. Only the parts the service touches are modelled.
 */
module Time {

  /** A JVM `Long`: a signed 64-bit integer. */
  newtype Long = x: int | -0x8000_0000_0000_0000 <= x < 0x8000_0000_0000_0000

  /** A JVM `Byte` as the payload bytes are stored (the payload is opaque, so the sign does not matter). */
  newtype byte = x: int | 0 <= x < 0x100

  /**
   * An instant on the time line, held as its epoch milliseconds, which is what
   * `Instant.toEpochMilli()` returns.
   */
  datatype Instant = FromEpochMilli(epochMilli: Long)

  /**
   * A calendar date without a zone. The service never builds or inspects a date; it only
   * compares dates for equality when filing and selecting reports.
   */
  datatype LocalDate = LocalDate(year: int, month: int, dayOfMonth: int)
}
