/**
 * The progress log's line format "%(asctime)s - %(levelname)s - %(message)s", with the
 * logging module's default asctime "YYYY-MM-DD HH:MM:SS,mmm".
 */
module LogFormat {
  import opened Text

  datatype Level = Info | Warning | Error

  function LevelName(level: Level): string {
    match level
    case Info => "INFO"
    case Warning => "WARNING"
    case Error => "ERROR"
  }

  /** One call of logging.info / logging.warning / logging.error. */
  datatype Record = Record(level: Level, message: string)

  /** The local time of a record, to the millisecond. */
  datatype Timestamp = Timestamp(year: nat, month: nat, day: nat, hour: nat, minute: nat, second: nat, millis: nat) {
    /** A four-digit year and fields in their calendar ranges. */
    predicate Valid() {
      && 1000 <= year <= 9999 && 1 <= month <= 12 && 1 <= day <= 31
      && hour < 24 && minute < 60 && second <= 61 && millis < 1000
    }
  }

  /** The positions of an asctime string that hold digits. */
  predicate DigitPosition(k: int) {
    0 <= k < 23 && k != 4 && k != 7 && k != 10 && k != 13 && k != 16 && k != 19
  }

  /** "YYYY-MM-DD HH:MM:SS,mmm": 23 characters, digits everywhere but the six separators. */
  predicate AsctimeShape(a: string) {
    && |a| == 23
    && (forall k :: 0 <= k < 23 && DigitPosition(k) ==> IsDigit(a[k]))
    && a[4] == '-' && a[7] == '-' && a[10] == ' ' && a[13] == ':' && a[16] == ':' && a[19] == ','
  }

  /** "YYYY-MM-DD", strftime's "%Y-%m-%d". */
  function Date(t: Timestamp): (d: string)
    ensures |d| == 10 && d[4] == '-' && d[7] == '-'
    ensures forall k :: 0 <= k < 10 && k != 4 && k != 7 ==> IsDigit(d[k])
  {
    var y, m, dd := Fixed(t.year, 4), Fixed(t.month, 2), Fixed(t.day, 2);
    assert forall k :: 0 <= k < 4 ==> (y + "-" + m + "-" + dd)[k] == y[k];
    assert forall k :: 0 <= k < 2 ==> (y + "-" + m + "-" + dd)[5 + k] == m[k];
    assert forall k :: 0 <= k < 2 ==> (y + "-" + m + "-" + dd)[8 + k] == dd[k];
    y + "-" + m + "-" + dd
  }

  /** "HH:MM:SS", strftime's "%H:%M:%S". */
  function Clock(t: Timestamp): (c: string)
    ensures |c| == 8 && c[2] == ':' && c[5] == ':'
    ensures forall k :: 0 <= k < 8 && k != 2 && k != 5 ==> IsDigit(c[k])
  {
    var h, m, s := Fixed(t.hour, 2), Fixed(t.minute, 2), Fixed(t.second, 2);
    assert forall k :: 0 <= k < 2 ==> (h + ":" + m + ":" + s)[k] == h[k];
    assert forall k :: 0 <= k < 2 ==> (h + ":" + m + ":" + s)[3 + k] == m[k];
    assert forall k :: 0 <= k < 2 ==> (h + ":" + m + ":" + s)[6 + k] == s[k];
    h + ":" + m + ":" + s
  }

  /** logging's default %(asctime)s: the date, the time and ",%03d" milliseconds. */
  function Asctime(t: Timestamp): (a: string)
    requires t.Valid()
    ensures AsctimeShape(a)
  {
    var d, c, ms := Date(t), Clock(t), Fixed(t.millis, 3);
    var a := d + " " + c + "," + ms;
    assert forall k :: 0 <= k < 10 ==> a[k] == d[k];
    assert forall k :: 0 <= k < 8 ==> a[11 + k] == c[k];
    assert forall k :: 0 <= k < 3 ==> a[20 + k] == ms[k];
    a
  }

  /** One line of the log file, without its terminating newline. */
  function Line(t: Timestamp, r: Record): (line: string)
    requires t.Valid()
    ensures |line| >= 23 && line[..23] == Asctime(t)
    ensures line[23..] == " - " + LevelName(r.level) + " - " + r.message
  {
    Asctime(t) + " - " + LevelName(r.level) + " - " + r.message
  }
}
