/**
 * Which store file the handler opens (handler/Handler.go, `InitDB`): one
 * SQLite file per device and UTC calendar month, named only once the clock is
 * past a fixed milestone; and the error text that calls for a file-system repair.
 */
module StoreFile {
  import opened Text

  /** A UTC calendar time to the second, as `time.Now().UTC()` gives it. */
  datatype UtcTime = UtcTime(year: int, month: int, day: int, hour: int, minute: int, second: int)

  predicate ValidTime(t: UtcTime) {
    && 1 <= t.month <= 12
    && 1 <= t.day <= 31
    && 0 <= t.hour < 24
    && 0 <= t.minute < 60
    && 0 <= t.second < 60
  }

  /** 2021-04-01T00:00:00+00:00: a clock earlier than this is taken as not yet synchronised. */
  const Milestone := UtcTime(2021, 4, 1, 0, 0, 0)

  /** `a.Before(b)`: strictly earlier. */
  predicate Before(a: UtcTime, b: UtcTime) {
    if a.year != b.year then a.year < b.year
    else if a.month != b.month then a.month < b.month
    else if a.day != b.day then a.day < b.day
    else if a.hour != b.hour then a.hour < b.hour
    else if a.minute != b.minute then a.minute < b.minute
    else a.second < b.second
  }

  predicate ClockSynced(t: UtcTime) {
    ValidTime(t) && !Before(t, Milestone)
  }

  /** A synchronised clock is in 2021 or later. */
  lemma SyncedClockYear(t: UtcTime)
    requires ClockSynced(t)
    ensures t.year >= 2021
    ensures t.year == 2021 ==> t.month >= 4
  {
  }

  /**
   * `date.Format("200601")`: the year on at least four digits, then the month
   * on exactly two; the last two digits read back as the month and the rest
   * as the year.
   */
  function MonthStamp(t: UtcTime): (stamp: string)
    requires ClockSynced(t)
    ensures |stamp| >= 6
    ensures forall i :: 0 <= i < |stamp| ==> IsDigit(stamp[i])
    ensures Value(stamp[..|stamp| - 2]) == t.year
    ensures Value(stamp[|stamp| - 2..]) == t.month
  {
    SyncedClockYear(t);
    assert Pow10(2) == 100;
    PadExactWidth(t.month, 2);
    PadValue(t.year, 4);
    PadValue(t.month, 2);
    var y, m := Pad(t.year, 4), Pad(t.month, 2);
    assert (y + m)[..|y + m| - 2] == y && (y + m)[|y + m| - 2..] == m;
    y + m
  }

  /** The SQLite connection options that follow the file name. */
  const DsnOptions := "?cache=shared&mode=rwc&_journal_mode=WAL"

  /**
   * `<MainFolder>/<ClientID>_<YYYYMM>.db?cache=shared&mode=rwc&_journal_mode=WAL`:
   * the folder, a slash, the client id and an underscore, then the month
   * stamp, then ".db" and the options.
   */
  function DbPath(mainFolder: string, clientID: string, t: UtcTime): (path: string)
    requires ClockSynced(t)
    ensures var head := mainFolder + "/" + clientID + "_";
      && |path| == |head| + |MonthStamp(t)| + 3 + |DsnOptions|
      && path[..|head|] == head
      && path[|head|..|head| + |MonthStamp(t)|] == MonthStamp(t)
      && path[|head| + |MonthStamp(t)|..] == ".db" + DsnOptions
  {
    var head := mainFolder + "/" + clientID + "_";
    var path := head + MonthStamp(t) + (".db" + DsnOptions);
    assert path[..|head|] == head;
    assert path[|head|..|head| + |MonthStamp(t)|] == MonthStamp(t);
    assert path[|head| + |MonthStamp(t)|..] == ".db" + DsnOptions;
    path
  }

  /** For four-digit years the stamp is six digits that read back as the year and the month. */
  lemma MonthStampRoundTrip(t: UtcTime)
    requires ClockSynced(t) && t.year <= 9999
    ensures |MonthStamp(t)| == 6
    ensures forall i :: 0 <= i < 6 ==> IsDigit(MonthStamp(t)[i])
    ensures Value(MonthStamp(t)[..4]) == t.year
    ensures Value(MonthStamp(t)[4..]) == t.month
  {
    SyncedClockYear(t);
    assert Pow10(4) == 10000 && Pow10(2) == 100;
    PadExactWidth(t.year, 4);
    PadExactWidth(t.month, 2);
  }

  /**
   * One file per device and month: two synchronised times name the same file
   * exactly when they fall in the same calendar month.
   */
  lemma SamePathIffSameMonth(mainFolder: string, clientID: string, t1: UtcTime, t2: UtcTime)
    requires ClockSynced(t1) && ClockSynced(t2)
    ensures DbPath(mainFolder, clientID, t1) == DbPath(mainFolder, clientID, t2)
        <==> t1.year == t2.year && t1.month == t2.month
  {
    var head := mainFolder + "/" + clientID + "_";
    var p1, p2 := DbPath(mainFolder, clientID, t1), DbPath(mainFolder, clientID, t2);
    var s1, s2 := MonthStamp(t1), MonthStamp(t2);
    if p1 == p2 {
      assert |s1| == |s2|;
      assert s1 == p1[|head|..|head| + |s1|];
      assert s1 == s2;
    }
  }

  /** The error text that signals a file system remounted read-only. */
  const ReadOnlySignature := "read-only file system"

  /** `isReadOnlyError`: the repair is run exactly when the error text contains the signature. */
  function IsReadOnlyError(errText: string): (repair: bool)
    ensures repair <==> exists i :: OccursAt(errText, ReadOnlySignature, i)
  {
    Contains(errText, ReadOnlySignature)
  }
}
