/**
 * Following an update to its end (src/lib/aggiornamento-stato.ts): the verdict for a request,
 * the decision after each reading, and the timestamps both compare as text.
 */
module UpdateStatus {
  import opened Sequences

  // ---------- text order ----------

  /** JavaScript's `<` on strings. */
  predicate Before(a: string, b: string) {
    b != "" && (a == "" || a[0] < b[0] || (a[0] == b[0] && Before(a[1..], b[1..])))
  }

  predicate AtOrAfter(a: string, b: string) {
    !Before(a, b)
  }

  lemma {:induction false} BeforeIsStrict(a: string)
    ensures !Before(a, a)
  {
    if a != "" {
      BeforeIsStrict(a[1..]);
    }
  }

  lemma {:induction false} BeforeIsTotal(a: string, b: string)
    ensures Before(a, b) || a == b || Before(b, a)
  {
    if a != "" && b != "" && a[0] == b[0] {
      BeforeIsTotal(a[1..], b[1..]);
      assert a == [a[0]] + a[1..] && b == [b[0]] + b[1..];
    }
  }

  lemma {:induction false} BeforeIsTransitive(a: string, b: string, c: string)
    requires Before(a, b) && Before(b, c)
    ensures Before(a, c)
  {
    if a != "" && a[0] == b[0] == c[0] {
      BeforeIsTransitive(a[1..], b[1..], c[1..]);
    }
  }

  // ---------- timestamps ----------

  /** A UTC date and time with milliseconds. */
  datatype Stamp = Stamp(year: nat, month: nat, day: nat, hour: nat, minute: nat, second: nat, milli: nat)

  predicate Leap(year: nat) {
    year % 4 == 0 && (year % 100 != 0 || year % 400 == 0)
  }

  function MonthLength(year: nat, month: nat): nat {
    if month == 2 then (if Leap(year) then 29 else 28)
    else if month == 4 || month == 6 || month == 9 || month == 11 then 30
    else 31
  }

  predicate ValidStamp(t: Stamp) {
    && t.year < 10000 && 1 <= t.month <= 12 && 1 <= t.day <= MonthLength(t.year, t.month)
    && t.hour < 24 && t.minute < 60 && t.second < 60 && t.milli < 1000
  }

  /** Days from the first day of year 0 to the first day of the year. */
  function DaysBeforeYear(year: nat): nat {
    if year == 0 then 0 else DaysBeforeYear(year - 1) + (if Leap(year - 1) then 366 else 365)
  }

  function DaysBeforeMonth(year: nat, month: nat): nat {
    if month <= 1 then 0 else DaysBeforeMonth(year, month - 1) + MonthLength(year, month - 1)
  }

  function DayNumber(t: Stamp): nat
    requires ValidStamp(t)
  {
    DaysBeforeYear(t.year) + DaysBeforeMonth(t.year, t.month) + (t.day - 1)
  }

  /** Milliseconds from the start of year 0. */
  function Instant(t: Stamp): nat
    requires ValidStamp(t)
  {
    (((DayNumber(t) * 24 + t.hour) * 60 + t.minute) * 60 + t.second) * 1000 + t.milli
  }

  function Digits(n: nat, width: nat): string {
    if width == 0 then "" else Digits(n / 10, width - 1) + ['0' + (n % 10) as char]
  }

  /** `toISOString` for the years 0 to 9999, as section 5.6 of RFC 3339 prints it. */
  function Print(t: Stamp): string {
    Digits(t.year, 4) + "-" + Digits(t.month, 2) + "-" + Digits(t.day, 2) + "T" +
    Digits(t.hour, 2) + ":" + Digits(t.minute, 2) + ":" + Digits(t.second, 2) + "." + Digits(t.milli, 3) + "Z"
  }

  /** The form of the text: year, month and day, hour, minute, second and milliseconds, in fixed places. */
  lemma PrintForm(t: Stamp)
    ensures var s := Print(t);
            && |s| == 24 && s[4] == '-' && s[7] == '-' && s[10] == 'T' && s[13] == ':' && s[16] == ':'
            && s[19] == '.' && s[23] == 'Z'
            && s[..4] == Digits(t.year, 4) && s[5..7] == Digits(t.month, 2) && s[8..10] == Digits(t.day, 2)
            && s[11..13] == Digits(t.hour, 2) && s[14..16] == Digits(t.minute, 2)
            && s[17..19] == Digits(t.second, 2) && s[20..23] == Digits(t.milli, 3)
  {
    hide Digits;
    DigitsLength(t.year, 4);
    DigitsLength(t.month, 2);
    DigitsLength(t.day, 2);
    DigitsLength(t.hour, 2);
    DigitsLength(t.minute, 2);
    DigitsLength(t.second, 2);
    DigitsLength(t.milli, 3);
  }

  lemma DigitsAre(n: nat)
    ensures Digits(n, 2) == ['0' + (n / 10 % 10) as char, '0' + (n % 10) as char]
    ensures Digits(n, 3) == ['0' + (n / 100 % 10) as char, '0' + (n / 10 % 10) as char, '0' + (n % 10) as char]
    ensures Digits(n, 4) == ['0' + (n / 1000 % 10) as char, '0' + (n / 100 % 10) as char, '0' + (n / 10 % 10) as char,
                             '0' + (n % 10) as char]
  {
    TwoDigits(n);
    ThreeDigits(n);
    FourDigits(n);
  }

  lemma TwoDigits(n: nat)
    ensures Digits(n, 2) == ['0' + (n / 10 % 10) as char, '0' + (n % 10) as char]
  {
    assert Digits(n / 10, 1) == Digits(n / 10 / 10, 0) + ['0' + (n / 10 % 10) as char];
  }

  lemma ThreeDigits(n: nat)
    ensures Digits(n, 3) == ['0' + (n / 100 % 10) as char, '0' + (n / 10 % 10) as char, '0' + (n % 10) as char]
  {
    TwoDigits(n / 10);
    assert n / 10 / 10 == n / 100;
  }

  lemma FourDigits(n: nat)
    ensures Digits(n, 4) == ['0' + (n / 1000 % 10) as char, '0' + (n / 100 % 10) as char, '0' + (n / 10 % 10) as char,
                             '0' + (n % 10) as char]
  {
    ThreeDigits(n / 10);
    assert n / 10 / 100 == n / 1000 && n / 10 / 10 == n / 100;
  }

  function Power(width: nat): nat {
    if width == 0 then 1 else 10 * Power(width - 1)
  }

  lemma {:induction false} DigitsLength(n: nat, width: nat)
    ensures |Digits(n, width)| == width
  {
    if width > 0 {
      DigitsLength(n / 10, width - 1);
    }
  }

  /** Texts of equal length compare first by their heads, then by their tails. */
  lemma {:induction false} BeforeConcat(a: string, b: string, c: string, d: string)
    requires |a| == |b|
    ensures Before(a + c, b + d) <==> Before(a, b) || (a == b && Before(c, d))
  {
    if a == "" {
      assert a + c == c && b + d == d;
    } else {
      BeforeConcat(a[1..], b[1..], c, d);
      assert (a + c)[1..] == a[1..] + c && (b + d)[1..] == b[1..] + d;
      assert a == [a[0]] + a[1..] && b == [b[0]] + b[1..];
    }
  }

  /** Zero-padded numbers compare as text exactly as they compare as numbers. */
  lemma {:induction false} DigitsOrder(n: nat, m: nat, width: nat)
    requires n < Power(width) && m < Power(width)
    ensures Before(Digits(n, width), Digits(m, width)) <==> n < m
    ensures Digits(n, width) == Digits(m, width) <==> n == m
  {
    if width > 0 {
      DigitsOrder(n / 10, m / 10, width - 1);
      DigitsLength(n / 10, width - 1);
      DigitsLength(m / 10, width - 1);
      var a, b := Digits(n / 10, width - 1), Digits(m / 10, width - 1);
      var c, d := ['0' + (n % 10) as char], ['0' + (m % 10) as char];
      BeforeConcat(a, b, c, d);
      assert c[1..] == "" && d[1..] == "";
      assert Before(c, d) <==> n % 10 < m % 10;
      assert (a + c)[..width - 1] == a && (b + d)[..width - 1] == b;
      assert (a + c)[width - 1] == c[0] && (b + d)[width - 1] == d[0];
    }
  }

  /** One zero-padded field and its separator in front of the rest. */
  lemma FieldOrder(n: nat, m: nat, width: nat, separator: char, c: string, d: string)
    requires n < Power(width) && m < Power(width)
    ensures Before(Digits(n, width) + ([separator] + c), Digits(m, width) + ([separator] + d))
            <==> n < m || (n == m && Before(c, d))
  {
    DigitsOrder(n, m, width);
    DigitsLength(n, width);
    DigitsLength(m, width);
    BeforeConcat(Digits(n, width), Digits(m, width), [separator] + c, [separator] + d);
    BeforeConcat([separator], [separator], c, d);
    BeforeIsStrict([separator]);
  }

  function PrintTime(t: Stamp): string {
    Digits(t.hour, 2) + ([':'] + (Digits(t.minute, 2) + ([':'] +
    (Digits(t.second, 2) + (['.'] + (Digits(t.milli, 3) + (['Z'] + "")))))))
  }

  function PrintDate(t: Stamp, rest: string): string {
    Digits(t.year, 4) + (['-'] + (Digits(t.month, 2) + (['-'] + (Digits(t.day, 2) + (['T'] + rest)))))
  }

  predicate TimeLess(a: Stamp, b: Stamp) {
    || a.hour < b.hour
    || (a.hour == b.hour && (a.minute < b.minute
    || (a.minute == b.minute && (a.second < b.second
    || (a.second == b.second && a.milli < b.milli)))))
  }

  predicate DateLess(a: Stamp, b: Stamp) {
    || a.year < b.year
    || (a.year == b.year && (a.month < b.month
    || (a.month == b.month && a.day < b.day)))
  }

  predicate SameDate(a: Stamp, b: Stamp) {
    a.year == b.year && a.month == b.month && a.day == b.day
  }

  lemma Powers()
    ensures Power(2) == 100 && Power(3) == 1000 && Power(4) == 10000
  {
    assert Power(1) == 10;
    assert Power(2) == 100;
    assert Power(3) == 1000;
  }

  lemma TimeOrder(a: Stamp, b: Stamp)
    requires ValidStamp(a) && ValidStamp(b)
    ensures Before(PrintTime(a), PrintTime(b)) <==> TimeLess(a, b)
  {
    Powers();
    var ma, mb := Digits(a.milli, 3) + (['Z'] + ""), Digits(b.milli, 3) + (['Z'] + "");
    FieldOrder(a.milli, b.milli, 3, 'Z', "", "");
    var sa, sb := Digits(a.second, 2) + (['.'] + ma), Digits(b.second, 2) + (['.'] + mb);
    FieldOrder(a.second, b.second, 2, '.', ma, mb);
    var na, nb := Digits(a.minute, 2) + ([':'] + sa), Digits(b.minute, 2) + ([':'] + sb);
    FieldOrder(a.minute, b.minute, 2, ':', sa, sb);
    FieldOrder(a.hour, b.hour, 2, ':', na, nb);
  }

  lemma DateOrder(a: Stamp, b: Stamp, c: string, d: string)
    requires ValidStamp(a) && ValidStamp(b)
    ensures Before(PrintDate(a, c), PrintDate(b, d)) <==> DateLess(a, b) || (SameDate(a, b) && Before(c, d))
  {
    Powers();
    var da, db := Digits(a.day, 2) + (['T'] + c), Digits(b.day, 2) + (['T'] + d);
    FieldOrder(a.day, b.day, 2, 'T', c, d);
    var ma, mb := Digits(a.month, 2) + (['-'] + da), Digits(b.month, 2) + (['-'] + db);
    FieldOrder(a.month, b.month, 2, '-', da, db);
    FieldOrder(a.year, b.year, 4, '-', ma, mb);
  }

  lemma PrintNests(t: Stamp)
    ensures Print(t) == PrintDate(t, PrintTime(t))
  {
  }

  lemma {:induction false} YearsAdd(a: nat, b: nat)
    requires a < b
    ensures DaysBeforeYear(a) + (if Leap(a) then 366 else 365) <= DaysBeforeYear(b)
  {
    if a + 1 < b {
      YearsAdd(a, b - 1);
    }
  }

  lemma {:induction false} MonthsAdd(year: nat, a: nat, b: nat)
    requires 1 <= a < b
    ensures DaysBeforeMonth(year, a) + MonthLength(year, a) <= DaysBeforeMonth(year, b)
  {
    if a + 1 < b {
      MonthsAdd(year, a, b - 1);
    }
  }

  lemma YearHolds(year: nat, month: nat)
    requires 1 <= month <= 12
    ensures DaysBeforeMonth(year, month) + MonthLength(year, month) <= (if Leap(year) then 366 else 365)
  {
    var d := m => DaysBeforeMonth(year, m);
    assert d(1) == 0 && d(2) == 31 && d(3) == 31 + MonthLength(year, 2);
    assert d(4) == d(3) + 31 && d(5) == d(4) + 30 && d(6) == d(5) + 31;
    assert d(7) == d(6) + 30 && d(8) == d(7) + 31 && d(9) == d(8) + 31;
    assert d(10) == d(9) + 30 && d(11) == d(10) + 31 && d(12) == d(11) + 30;
    if month < 12 {
      MonthsAdd(year, month, 12);
    }
  }

  lemma EarlierDateSmallerNumber(a: Stamp, b: Stamp)
    requires ValidStamp(a) && ValidStamp(b) && DateLess(a, b)
    ensures DayNumber(a) < DayNumber(b)
  {
    if a.year < b.year {
      YearsAdd(a.year, b.year);
      YearHolds(a.year, a.month);
    } else if a.month < b.month {
      MonthsAdd(a.year, a.month, b.month);
    }
  }

  /** Milliseconds into the day. */
  function TimeOfDay(t: Stamp): nat {
    ((t.hour * 60 + t.minute) * 60 + t.second) * 1000 + t.milli
  }

  lemma InstantSplits(t: Stamp)
    requires ValidStamp(t)
    ensures Instant(t) == DayNumber(t) * 86400000 + TimeOfDay(t)
    ensures TimeOfDay(t) < 86400000
  {
  }

  lemma EarlierStampSmallerInstant(a: Stamp, b: Stamp)
    requires ValidStamp(a) && ValidStamp(b)
    requires DateLess(a, b) || (SameDate(a, b) && TimeLess(a, b))
    ensures Instant(a) < Instant(b)
  {
    InstantSplits(a);
    InstantSplits(b);
    if DateLess(a, b) {
      EarlierDateSmallerNumber(a, b);
    } else {
      assert TimeOfDay(a) < TimeOfDay(b);
    }
  }

  /** Comparing the printed timestamps as text is comparing the instants they denote. */
  lemma TextOrderIsTimeOrder(a: Stamp, b: Stamp)
    requires ValidStamp(a) && ValidStamp(b)
    ensures Before(Print(a), Print(b)) <==> Instant(a) < Instant(b)
  {
    PrintNests(a);
    PrintNests(b);
    DateOrder(a, b, PrintTime(a), PrintTime(b));
    TimeOrder(a, b);
    if DateLess(a, b) || (SameDate(a, b) && TimeLess(a, b)) {
      EarlierStampSmallerInstant(a, b);
    } else if DateLess(b, a) || (SameDate(b, a) && TimeLess(b, a)) {
      EarlierStampSmallerInstant(b, a);
    } else {
      assert a == b;
    }
  }

  // ---------- the verdict ----------

  datatype AttemptOutcome = Running | Succeeded | Failed | Interrupted | ReadyNotStarted

  datatype CheckOutcome =
    | UpToDate | WaitingAfterFailures | DocumentationOnly | UpdateStarted | FetchFailed | ServiceStopped
    | DowngradeRefused

  datatype Attempt = Attempt(
    startedAt: Option<string>,
    phase: Option<string>,
    outcome: Option<AttemptOutcome>,
    message: Option<string>,
    warnings: seq<string>)

  datatype Check = Check(at: string, outcome: CheckOutcome)

  datatype Status = Status(lastAttempt: Option<Attempt>, lastCheck: Option<Check>)

  datatype Reason = NotStarted | Reported(text: string) | InPhase(interrupted: bool, phase: Option<string>)
                  | CannotFetch | FailedTooOften | OlderVersion

  datatype Progress =
    | Waiting
    | Going(phase: Option<string>)
    | Done(note: Option<seq<string>>)
    | NothingNew
    | NotDone(reason: Reason)

  function JudgeAttempt(t: Attempt): Progress {
    match t.outcome
    case Some(Succeeded) => Done(if |t.warnings| > 0 then Some(t.warnings) else None)
    case Some(ReadyNotStarted) => NotDone(NotStarted)
    case Some(Failed) => NotDone(if t.message.Some? then Reported(t.message.value) else InPhase(false, t.phase))
    case Some(Interrupted) => NotDone(if t.message.Some? then Reported(t.message.value) else InPhase(true, t.phase))
    case _ => Going(t.phase)
  }

  function JudgeCheck(c: Check): Progress {
    match c.outcome
    case UpToDate => NothingNew
    case DocumentationOnly => Done(Some(["solo documentazione: nessun riavvio"]))
    case FetchFailed => NotDone(CannotFetch)
    case WaitingAfterFailures => NotDone(FailedTooOften)
    case UpdateStarted => Going(Some("inizio"))
    case ServiceStopped => NotDone(NotStarted)
    case DowngradeRefused => NotDone(OlderVersion)
  }

  /** `valutaAvanzamento`; a missing or blank start never counts. */
  function Judge(s: Status, requestedAt: string): Progress {
    if s.lastAttempt.Some? && s.lastAttempt.value.startedAt.Some? && s.lastAttempt.value.startedAt.value != ""
       && AtOrAfter(s.lastAttempt.value.startedAt.value, requestedAt)
    then JudgeAttempt(s.lastAttempt.value)
    else if s.lastCheck.Some? && AtOrAfter(s.lastCheck.value.at, requestedAt)
    then JudgeCheck(s.lastCheck.value)
    else Waiting
  }

  /** The attempt answers the request: it started at or after it. */
  predicate AttemptCounts(s: Status, requestedAt: string) {
    && s.lastAttempt.Some? && s.lastAttempt.value.startedAt.Some? && s.lastAttempt.value.startedAt.value != ""
    && AtOrAfter(s.lastAttempt.value.startedAt.value, requestedAt)
  }

  predicate CheckCounts(s: Status, requestedAt: string) {
    s.lastCheck.Some? && AtOrAfter(s.lastCheck.value.at, requestedAt)
  }

  /** The verdict that an attempt gives, by its outcome. */
  predicate SaidByAttempt(t: Attempt, verdict: Progress) {
    && (verdict.Done? <==> t.outcome == Some(Succeeded))
    && (verdict.NotDone? <==> t.outcome in [Some(Failed), Some(Interrupted), Some(ReadyNotStarted)])
    && (verdict.Going? <==> t.outcome in [None, Some(Running)])
    && (verdict.Done? ==> verdict.note == if t.warnings == [] then None else Some(t.warnings))
    && (verdict.Going? ==> verdict.phase == t.phase)
    && (verdict.NotDone? ==>
          && (verdict.reason == NotStarted <==> t.outcome == Some(ReadyNotStarted))
          && (t.outcome != Some(ReadyNotStarted) ==>
                verdict.reason == if t.message.Some? then Reported(t.message.value)
                                  else InPhase(t.outcome == Some(Interrupted), t.phase)))
  }

  /** The verdict that a check gives, by its outcome. */
  predicate SaidByCheck(c: Check, verdict: Progress) {
    && (verdict == NothingNew <==> c.outcome == UpToDate)
    && (verdict == Done(Some(["solo documentazione: nessun riavvio"])) <==> c.outcome == DocumentationOnly)
    && (verdict == NotDone(CannotFetch) <==> c.outcome == FetchFailed)
    && (verdict == NotDone(FailedTooOften) <==> c.outcome == WaitingAfterFailures)
    && (verdict == Going(Some("inizio")) <==> c.outcome == UpdateStarted)
    && (verdict == NotDone(NotStarted) <==> c.outcome == ServiceStopped)
    && (verdict == NotDone(OlderVersion) <==> c.outcome == DowngradeRefused)
  }

  /** The attempt answers when it is no earlier than the request, else the check does, else nobody. */
  lemma VerdictIs(s: Status, requestedAt: string)
    ensures var verdict := Judge(s, requestedAt);
            var attempt, check := AttemptCounts(s, requestedAt), CheckCounts(s, requestedAt);
            && (attempt ==> SaidByAttempt(s.lastAttempt.value, verdict))
            && (!attempt && check ==> SaidByCheck(s.lastCheck.value, verdict))
            && (verdict.Waiting? <==> !attempt && !check)
  {
  }

  /**
   * With timestamps as the server prints them, the verdict for a request is that of the attempt whose
   * start is no earlier instant, else of the check that is none, else to wait; an earlier record counts
   * as no record.
   */
  lemma VerdictByInstants(s: Status, requested: Stamp, started: Stamp, checked: Stamp)
    requires ValidStamp(requested) && ValidStamp(started) && ValidStamp(checked)
    requires s.lastAttempt.Some? && s.lastAttempt.value.startedAt.Some? ==>
               s.lastAttempt.value.startedAt.value == Print(started)
    requires s.lastCheck.Some? ==> s.lastCheck.value.at == Print(checked)
    ensures var verdict := Judge(s, Print(requested));
            var attempt := s.lastAttempt.Some? && s.lastAttempt.value.startedAt.Some?
                           && Instant(requested) <= Instant(started);
            var check := s.lastCheck.Some? && Instant(requested) <= Instant(checked);
            && (attempt ==> SaidByAttempt(s.lastAttempt.value, verdict))
            && (!attempt && check ==> SaidByCheck(s.lastCheck.value, verdict))
            && (verdict.Waiting? <==> !attempt && !check)
            && (!attempt ==> Judge(s.(lastAttempt := None), Print(requested)) == verdict)
            && (!check ==> Judge(s.(lastCheck := None), Print(requested)) == verdict)
  {
    hide Instant, ValidStamp, Print, Before;
    TextOrderIsTimeOrder(started, requested);
    TextOrderIsTimeOrder(checked, requested);
    PrintIsNotEmpty(started);
    VerdictIs(s, Print(requested));
  }

  lemma PrintIsNotEmpty(t: Stamp)
    ensures Print(t) != ""
  {
    hide Digits;
  }

  predicate StaleAttempt(t: Option<Attempt>, requestedAt: string) {
    t.None? || t.value.startedAt.None? || t.value.startedAt.value == "" || Before(t.value.startedAt.value, requestedAt)
  }

  predicate StaleCheck(c: Option<Check>, requestedAt: string) {
    c.None? || Before(c.value.at, requestedAt)
  }

  /** The verdict depends only on records at or after the request: older ones can be any others. */
  lemma OlderRecordsDoNotCount(s: Status, other: Status, requestedAt: string)
    requires s.lastAttempt == other.lastAttempt
             || (StaleAttempt(s.lastAttempt, requestedAt) && StaleAttempt(other.lastAttempt, requestedAt))
    requires s.lastCheck == other.lastCheck
             || (StaleCheck(s.lastCheck, requestedAt) && StaleCheck(other.lastCheck, requestedAt))
    ensures Judge(s, requestedAt) == Judge(other, requestedAt)
    ensures Judge(s, requestedAt) == Waiting <==>
              StaleAttempt(s.lastAttempt, requestedAt) && StaleCheck(s.lastCheck, requestedAt)
  {
  }

  /** Waiting for one request time is waiting for every later one. */
  lemma WaitingStaysWaiting(s: Status, requestedAt: string, later: string)
    requires Judge(s, requestedAt) == Waiting && AtOrAfter(later, requestedAt)
    ensures Judge(s, later) == Waiting
  {
    OlderRecordsDoNotCount(s, s, requestedAt);
    OlderRecordsDoNotCount(s, s, later);
    BeforeIsTotal(requestedAt, later);
    if Before(requestedAt, later) {
      if s.lastAttempt.Some? && s.lastAttempt.value.startedAt.Some? && s.lastAttempt.value.startedAt.value != "" {
        BeforeIsTransitive(s.lastAttempt.value.startedAt.value, requestedAt, later);
      }
      if s.lastCheck.Some? {
        BeforeIsTransitive(s.lastCheck.value.at, requestedAt, later);
      }
    }
  }

  // ---------- following ----------

  const INTERVAL_MS: int := 3000
  const MAX_ERRORS_IN_A_ROW: nat := 100
  const MAX_FOLLOW_MS: int := 1800000

  datatype Motive = Success | Failure | NoNews | Session | Unreachable | OutOfTime

  datatype Decision = Continue(errors: nat) | Stop(motive: Motive)

  /** One reading: HTTP status, verdict if the answer was readable, milliseconds since the start. */
  datatype Reading = Reading(status: Option<nat>, progress: Option<Progress>, elapsed: int)

  function Decide(r: Reading, errors: nat): Decision {
    if r.elapsed > MAX_FOLLOW_MS then Stop(OutOfTime)
    else if r.status == Some(401) then Stop(Session)
    else match r.progress
      case None => if errors + 1 > MAX_ERRORS_IN_A_ROW then Stop(Unreachable) else Continue(errors + 1)
      case Some(Done(_)) => Stop(Success)
      case Some(NotDone(_)) => Stop(Failure)
      case Some(NothingNew) => Stop(NoNews)
      case Some(_) => Continue(0)
  }

  /** After `n` readings: still following with an error count, or stopped by an earlier one. */
  function Follow(readings: seq<Reading>, n: nat): Decision
    requires n <= |readings|
  {
    if n == 0 then Continue(0)
    else match Follow(readings, n - 1)
      case Stop(m) => Stop(m)
      case Continue(errors) => Decide(readings[n - 1], errors)
  }

  /** Readings at least three seconds apart, the clock never before the start. */
  predicate Spaced(readings: seq<Reading>) {
    && (readings != [] ==> readings[0].elapsed >= 0)
    && forall i :: 0 < i < |readings| ==> readings[i].elapsed >= readings[i - 1].elapsed + INTERVAL_MS
  }

  lemma {:induction false} SpacedElapsed(readings: seq<Reading>, i: nat)
    requires Spaced(readings) && i < |readings|
    ensures readings[i].elapsed >= INTERVAL_MS * i
  {
    if i > 0 {
      SpacedElapsed(readings, i - 1);
    }
  }

  /** A stop is for good: later readings change nothing. */
  lemma {:induction false} StopLasts(readings: seq<Reading>, m: nat, n: nat)
    requires m <= n <= |readings| && Follow(readings, m).Stop?
    ensures Follow(readings, n) == Follow(readings, m)
    decreases n
  {
    if m < n {
      StopLasts(readings, m, n - 1);
    }
  }

  /** Following stops within 602 readings and stays stopped, whatever is read later. */
  lemma FollowingStops(readings: seq<Reading>, n: nat)
    requires Spaced(readings) && 602 <= n <= |readings|
    ensures Follow(readings, 602).Stop? && Follow(readings, n) == Follow(readings, 602)
  {
    SpacedElapsed(readings, 601);
    StopLasts(readings, 602, n);
  }

  /** The bound is tight: 601 readings can pass without a stop. */
  lemma FollowingMayLast(n: nat) returns (readings: seq<Reading>)
    requires n <= 601
    ensures Spaced(readings) && |readings| == n && Follow(readings, n) == Continue(0)
  {
    readings := seq(n, i requires 0 <= i < n => Reading(Some(200), Some(Waiting), INTERVAL_MS * i));
    FollowSteady(readings, n);
  }

  predicate SteadyReadings(readings: seq<Reading>) {
    forall i :: 0 <= i < |readings| ==>
      readings[i].progress == Some(Waiting) && readings[i].status == Some(200) && readings[i].elapsed <= MAX_FOLLOW_MS
  }

  lemma {:induction false} FollowSteady(readings: seq<Reading>, n: nat)
    requires n <= |readings| && SteadyReadings(readings)
    ensures Follow(readings, n) == Continue(0)
  {
    if n > 0 {
      FollowSteady(readings, n - 1);
    }
  }

  /** The length of the run of readings without a verdict that ends at `n`. */
  function SilentRun(readings: seq<Reading>, n: nat): nat
    requires n <= |readings|
  {
    if n == 0 || readings[n - 1].progress.Some? then 0 else 1 + SilentRun(readings, n - 1)
  }

  /** The error counter is always the length of the current run of readings without a verdict. */
  lemma {:induction false} CounterIsSilentRun(readings: seq<Reading>, n: nat)
    requires n <= |readings| && Follow(readings, n).Continue?
    ensures Follow(readings, n).errors == SilentRun(readings, n) <= MAX_ERRORS_IN_A_ROW
  {
    if n > 0 {
      CounterIsSilentRun(readings, n - 1);
    }
  }

  lemma {:induction false} SilentRunIs(readings: seq<Reading>, i: nat, n: nat)
    requires i <= n <= |readings| && forall k :: i <= k < n ==> readings[k].progress.None?
    ensures SilentRun(readings, n) >= n - i
    decreases n
  {
    if i < n {
      SilentRunIs(readings, i, n - 1);
    }
  }

  /** 101 consecutive readings without a verdict always stop the following, for good. */
  lemma SilenceStops(readings: seq<Reading>, i: nat, n: nat)
    requires i + 101 <= n <= |readings| && forall k :: i <= k < i + 101 ==> readings[k].progress.None?
    ensures Follow(readings, n).Stop? && Follow(readings, n) == Follow(readings, i + 101)
  {
    if Follow(readings, i + 101).Continue? {
      CounterIsSilentRun(readings, i + 101);
      SilentRunIs(readings, i, i + 101);
    }
    StopLasts(readings, i + 101, n);
  }

  /**
   * While following, the next reading stops it exactly when it comes after half an hour, or says that
   * the session is over, or carries a final verdict, or closes 101 readings without one; the motive is
   * the first of these that applies. Otherwise it goes on, counting the readings without a verdict.
   */
  lemma NextReadingDecides(readings: seq<Reading>, n: nat)
    requires n < |readings| && Follow(readings, n).Continue?
    ensures var r, next, silent := readings[n], Follow(readings, n + 1), SilentRun(readings, n + 1);
            var late, out := r.elapsed > 1800000, r.status == Some(401);
            var told := !late && !out && r.progress.Some?;
            && (next == Stop(OutOfTime) <==> late)
            && (next == Stop(Session) <==> !late && out)
            && (next == Stop(Success) <==> told && r.progress.value.Done?)
            && (next == Stop(Failure) <==> told && r.progress.value.NotDone?)
            && (next == Stop(NoNews) <==> told && r.progress.value.NothingNew?)
            && (next == Stop(Unreachable) <==> !late && !out && r.progress.None? && silent >= 101)
            && (next.Continue? <==>
                  && !late && !out && silent <= 100
                  && (r.progress.Some? ==> r.progress.value.Going? || r.progress.value.Waiting?))
            && (next.Continue? ==> next.errors == silent)
  {
    CounterIsSilentRun(readings, n);
  }

  /** Following has stopped exactly when some reading stopped it, with the motive of the first that did. */
  lemma {:induction false} StoppedIff(readings: seq<Reading>, n: nat)
    requires n <= |readings|
    ensures Follow(readings, n).Stop? <==>
              exists k: nat :: k < n && Follow(readings, k).Continue? && Follow(readings, k + 1).Stop?
    ensures forall k: nat :: k < n && Follow(readings, k).Continue? && Follow(readings, k + 1).Stop? ==>
                               Follow(readings, n) == Follow(readings, k + 1)
  {
    if n > 0 {
      StoppedIff(readings, n - 1);
      assert Follow(readings, n - 1 + 1) == Follow(readings, n);
    }
  }

  /** A stop and its motive come from one reading: what it says is exactly the motive. */
  lemma MotiveIsEarned(readings: seq<Reading>, n: nat) returns (k: nat)
    requires n <= |readings| && Follow(readings, n).Stop?
    ensures k < n && Follow(readings, k).Continue? && Follow(readings, k + 1) == Follow(readings, n)
    ensures var m, r := Follow(readings, n).motive, readings[k];
            var late, out := r.elapsed > 1800000, r.status == Some(401);
            var told := !late && !out && r.progress.Some?;
            && (m == OutOfTime <==> late)
            && (m == Session <==> !late && out)
            && (m == Success <==> told && r.progress.value.Done?)
            && (m == Failure <==> told && r.progress.value.NotDone?)
            && (m == NoNews <==> told && r.progress.value.NothingNew?)
            && (m == Unreachable <==>
                  !late && !out && r.progress.None? && SilentRun(readings, k + 1) >= 101)
  {
    hide Follow, SilentRun;
    StoppedIff(readings, n);
    k :| k < n && Follow(readings, k).Continue? && Follow(readings, k + 1).Stop?;
    NextReadingDecides(readings, k);
  }
}
