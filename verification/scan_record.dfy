/** The Room entity `scans` of data/model/Scan.kt. */
module ScanRecord {

  /**
   * One scan: an auto-generated primary key, the decoded text and the
   * creation time in milliseconds since the epoch.
   */
  datatype Scan = Scan(id: int, content: string, timestamp: int)

  /** The default id: Room treats 0 as "not set" and lets the database assign one. */
  const UnassignedId: int := 0

  /**
   * `Scan(content = c)`: the id takes its default and the timestamp is read
   * from the clock when the record is constructed, here the parameter `now`.
   */
  function NewScan(content: string, now: int): Scan
  {
    Scan(UnassignedId, content, now)
  }
}
