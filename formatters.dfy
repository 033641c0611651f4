/** `formatDuration` of the call timer
    (src/components/features/call/CallTimer.tsx): minutes and seconds, each
    padded to two digits, joined by a colon. */
module CallTimer {
  import opened Results
  import opened Strings

  /** A part padded with "0" to at least two digits. */
  function TwoDigits(n: nat): string {
    PadStart(NatToString(n), 2, '0')
  }

  /** The call duration is a whole, non-negative number of seconds. */
  function FormatDuration(seconds: nat): (s: string)
    ensures |s| >= 5 && s[|s| - 3] == ':'
    ensures seconds < 6000 ==> |s| == 5
  {
    TwoDigitsShape(seconds / 60);
    TwoDigitsShape(seconds % 60);
    TwoDigits(seconds / 60) + ":" + TwoDigits(seconds % 60)
  }

  /** Reading a formatted duration back: two digit runs around one colon. */
  function ParseDuration(s: string): (r: Option<nat>)
  {
    var parts := Split(s, ':');
    if |parts| == 2 && AllDigits(parts[0]) && AllDigits(parts[1]) && |parts[0]| > 0 && |parts[1]| > 0
    then Some(DigitsValue(parts[0]) * 60 + DigitsValue(parts[1]))
    else None
  }

  lemma TwoDigitsShape(n: nat)
    ensures var p := TwoDigits(n);
      AllDigits(p) && |p| >= 2 && NoChar(p, ':') && DigitsValue(p) == n && (n < 100 ==> |p| == 2)
  {
    var d := NatToString(n);
    DigitsValueOfNatToString(n);
    if n < 10 {
      assert |d| == 1;
      assert seq(1, _ => '0') == "0";
      DigitsValueLeadingZero(d);
    } else if n < 100 {
      assert |NatToString(n / 10)| == 1;
    } else {
      assert |NatToString(n / 10)| >= 1;
    }
  }

  /** Minutes times sixty plus seconds, read back, is the input. */
  lemma FormatDurationRoundTrip(seconds: nat)
    ensures ParseDuration(FormatDuration(seconds)) == Some(seconds)
  {
    var m := TwoDigits(seconds / 60);
    var s := TwoDigits(seconds % 60);
    TwoDigitsShape(seconds / 60);
    TwoDigitsShape(seconds % 60);
    assert FormatDuration(seconds) == m + [':'] + s;
    SplitAtFirst(m, s, ':');
    SplitWithoutSep(s, ':');
    assert Split(FormatDuration(seconds), ':') == [m, s];
  }
}

/** `formatTime` and `resultLabels` of the wave history
    (src/components/features/wave/WaveHistory.tsx). The clock reading and
    the locale date text are parameters. */
module WaveHistory {
  import opened Results
  import opened Strings
  import Db

  const MsPerMinute: int := 60_000
  const MsPerHour: int := 3_600_000
  const MsPerDay: int := 86_400_000

  /** Which text `formatTime` chooses. */
  datatype Elapsed = JustNow | MinutesAgo(minutes: nat) | HoursAgo(hours: nat) | OnDate

  /** `Math.floor` of the elapsed time in minutes, then in hours. Dafny's
      division rounds down for a positive divisor, as `Math.floor` does,
      also for a timestamp in the future. */
  function Classify(now: int, t: int): (e: Elapsed)
    ensures e.JustNow? <==> now - t < MsPerMinute
    ensures e.MinutesAgo? <==> MsPerMinute <= now - t < MsPerHour
    ensures e.HoursAgo? <==> MsPerHour <= now - t < MsPerDay
    ensures e.OnDate? <==> now - t >= MsPerDay
    ensures e.MinutesAgo? ==>
      1 <= e.minutes < 60 && e.minutes * MsPerMinute <= now - t < (e.minutes + 1) * MsPerMinute
    ensures e.HoursAgo? ==>
      1 <= e.hours < 24 && e.hours * MsPerHour <= now - t < (e.hours + 1) * MsPerHour
  {
    var diffMin := (now - t) / MsPerMinute;
    if diffMin < 1 then JustNow
    else if diffMin < 60 then MinutesAgo(diffMin)
    else
      var diffHour := diffMin / 60;
      HourFromMinutes(now - t);
      if diffHour < 24 then HoursAgo(diffHour) else OnDate
  }

  /** Flooring to minutes and then to hours is flooring to hours. */
  lemma HourFromMinutes(diff: int)
    requires diff >= 0
    ensures (diff / MsPerMinute) / 60 == diff / MsPerHour
  {
    var m := diff / MsPerMinute;
    var h := m / 60;
    assert diff == m * MsPerMinute + diff % MsPerMinute;
    assert m == h * 60 + m % 60;
    assert diff == h * MsPerHour + ((m % 60) * MsPerMinute + diff % MsPerMinute);
    assert 0 <= (m % 60) * MsPerMinute + diff % MsPerMinute < MsPerHour;
  }

  const JustNowText: string := "たった今"
  const MinutesSuffix: string := "分前"
  const HoursSuffix: string := "時間前"

  function Render(e: Elapsed, localeDate: string): string {
    match e
    case JustNow => JustNowText
    case MinutesAgo(m) => NatToString(m) + MinutesSuffix
    case HoursAgo(h) => NatToString(h) + HoursSuffix
    case OnDate => localeDate
  }

  /** `formatTime(date)` at clock reading `now`; `localeDate` is the
      date's `toLocaleDateString` text, used only a day or more after it. */
  function FormatTime(now: int, t: int, localeDate: string): (s: string)
    ensures now - t < MsPerMinute ==> s == JustNowText
    ensures now - t >= MsPerDay ==> s == localeDate
  {
    Render(Classify(now, t), localeDate)
  }

  /** Reads a relative text back to the bucket it came from. */
  function ParseRelative(s: string): Option<Elapsed> {
    if s == JustNowText then Some(JustNow)
    else if |s| > 3 && s[|s| - 3..] == HoursSuffix && AllDigits(s[..|s| - 3]) then
      Some(HoursAgo(DigitsValue(s[..|s| - 3])))
    else if |s| > 2 && s[|s| - 2..] == MinutesSuffix && AllDigits(s[..|s| - 2]) then
      Some(MinutesAgo(DigitsValue(s[..|s| - 2])))
    else None
  }

  /** Every relative text names its bucket and its count unambiguously. */
  lemma RelativeTextReads(now: int, t: int, localeDate: string)
    requires now - t < MsPerDay
    ensures ParseRelative(FormatTime(now, t, localeDate)) == Some(Classify(now, t))
  {
    var e := Classify(now, t);
    var s := FormatTime(now, t, localeDate);
    match e
    case JustNow =>
    case MinutesAgo(m) =>
      var d := NatToString(m);
      DigitsValueOfNatToString(m);
      assert s == d + MinutesSuffix;
      assert s[..|s| - 2] == d && s[|s| - 2..] == MinutesSuffix;
      assert s != JustNowText by { assert s[|s| - 1] == '前'; }
      assert s[|s| - 3..] != HoursSuffix by { assert s[|s| - 2] == '分'; }
    case HoursAgo(h) =>
      var d := NatToString(h);
      DigitsValueOfNatToString(h);
      assert s == d + HoursSuffix;
      assert s[..|s| - 3] == d && s[|s| - 3..] == HoursSuffix;
      assert s != JustNowText by { assert s[|s| - 1] == '前'; }
    case OnDate =>
  }

  /** The result kinds the history shows; an expired wave has none. */
  datatype HistoryResult = Accepted | Declined | Pending

  datatype Label = Label(text: string, color: string)

  function ResultLabel(r: HistoryResult): (l: Label)
    ensures l.color in {"text-green-600", "text-gray-500", "text-yellow-600"}
  {
    match r
    case Accepted => Label("通話開始", "text-green-600")
    case Declined => Label("またの機会に", "text-gray-500")
    case Pending => Label("応答待ち...", "text-yellow-600")
  }

  /** The history result of a stored wave status, absent for `expired`. */
  function ResultOf(status: Db.WaveStatus): (r: Option<HistoryResult>)
    ensures r.None? <==> status == Db.Expired
  {
    match status
    case Pending => Some(Pending)
    case Accepted => Some(Accepted)
    case Declined => Some(Declined)
    case Expired => None
  }

  /** Different results get different texts and colours. */
  lemma ResultLabelsDistinct(a: HistoryResult, b: HistoryResult)
    requires a != b
    ensures ResultLabel(a).text != ResultLabel(b).text && ResultLabel(a).color != ResultLabel(b).color
  {
    if a == Accepted && b == Declined {
      assert ResultLabel(a).text[0] != ResultLabel(b).text[0];
    }
  }
}
