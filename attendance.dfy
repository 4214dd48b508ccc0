/** `AttendanceService`: admins open short-lived sessions identified by a random
    six-digit code; avengers mark themselves present with that code; monthly
    statistics count workdays and clamp absences at zero.

    The two repositories are the service's state: the sessions in id order (ids are
    positions) and the attendance records in insertion order. Local date-times are
    nanosecond counts on the local time line; the random draws and `now` are
    parameters. */
module Attendance {
  import opened Wrappers
  import opened UserModel
  import opened Calendar

  // ---------------------------------------------------------------------------
  // Six-digit codes: String.format("%06d", n)

  predicate IsDigit(c: char) {
    '0' <= c <= '9'
  }

  function Pow10(n: nat): (p: nat)
    ensures p >= 1
  {
    if n == 0 then 1 else 10 * Pow10(n - 1)
  }

  function DigitValue(c: char): (d: nat)
    requires IsDigit(c)
    ensures d < 10
  {
    c as int - '0' as int
  }

  /** The value of a string of decimal digits. */
  function DecimalValue(s: string): (v: nat)
    requires forall i :: 0 <= i < |s| ==> IsDigit(s[i])
    ensures v < Pow10(|s|)
  {
    if s == [] then 0
    else
      var high := DecimalValue(s[..|s| - 1]);
      var low := DigitValue(s[|s| - 1]);
      assert high * 10 + low < Pow10(|s|) by {
        assert high * 10 <= (Pow10(|s| - 1) - 1) * 10;
      }
      high * 10 + low
  }

  /** `n` in decimal on exactly `width` digits, zero-padded on the left. */
  function PadDecimal(n: nat, width: nat): (s: string)
    ensures |s| == width
    ensures forall i :: 0 <= i < |s| ==> IsDigit(s[i])
  {
    if width == 0 then ""
    else PadDecimal(n / 10, width - 1) + [(n % 10 + '0' as int) as char]
  }

  /** Padding then reading back gives the number, whenever it fits in the width. */
  lemma {:induction false} PadDecimalRoundTrip(n: nat, width: nat)
    requires n < Pow10(width)
    ensures DecimalValue(PadDecimal(n, width)) == n
  {
    if width > 0 {
      var s := PadDecimal(n, width);
      PadDecimalRoundTrip(n / 10, width - 1);
      assert s[..|s| - 1] == PadDecimal(n / 10, width - 1);
    }
  }

  const CodeSpace: int := 1_000_000
  const CodeLength: int := 6

  /** The code of a draw of `random.nextInt(1000000)`: six decimal digits that read
      back as the draw, so distinct draws give distinct codes. */
  function SixDigitCode(draw: int): (code: string)
    requires 0 <= draw < CodeSpace
    ensures |code| == CodeLength
    ensures forall i :: 0 <= i < |code| ==> IsDigit(code[i])
    ensures DecimalValue(code) == draw
  {
    PadDecimalRoundTrip(draw, 6);
    PadDecimal(draw, 6)
  }

  // ---------------------------------------------------------------------------
  // Sessions and records

  datatype Session = Session(id: nat, adminId: int, code: string, startTime: int, endTime: int, isActive: bool)

  datatype Record = Record(sessionId: nat, userId: int, markedAt: int)

  /** The contents of both repositories. */
  datatype Ledger = Ledger(sessions: seq<Session>, records: seq<Record>)

  /** What the schema and the service guarantee of the two tables: ids are
      positions, `attendance_code` is a unique column, a record names an existing
      session, and (session, user) is the primary key of a record. */
  predicate LedgerValid(l: Ledger) {
    && (forall i :: 0 <= i < |l.sessions| ==> l.sessions[i].id == i)
    && (forall i, j :: 0 <= i < j < |l.sessions| ==> l.sessions[i].code != l.sessions[j].code)
    && (forall k :: 0 <= k < |l.records| ==> l.records[k].sessionId < |l.sessions|)
    && (forall k1, k2 :: 0 <= k1 < k2 < |l.records| ==>
          l.records[k1].sessionId != l.records[k2].sessionId || l.records[k1].userId != l.records[k2].userId)
  }

  predicate ActiveWithCode(s: Session, code: string) {
    s.isActive && s.code == code
  }

  /** `findByAttendanceCodeAndIsActiveTrue`: the position of the active session with
      this code, searching from position `from`. */
  function FindActiveFrom(sessions: seq<Session>, code: string, from: nat): (r: Option<nat>)
    requires from <= |sessions|
    ensures r.None? <==> forall i :: from <= i < |sessions| ==> !ActiveWithCode(sessions[i], code)
    ensures r.Some? ==> from <= r.value < |sessions| && ActiveWithCode(sessions[r.value], code)
    decreases |sessions| - from
  {
    if from == |sessions| then None
    else if ActiveWithCode(sessions[from], code) then Some(from)
    else FindActiveFrom(sessions, code, from + 1)
  }

  function FindActive(sessions: seq<Session>, code: string): Option<nat>
  {
    FindActiveFrom(sessions, code, 0)
  }

  /** With unique codes, the active session found is the only session with that code. */
  lemma FoundIsOnlyHolder(l: Ledger, code: string, i: nat)
    requires LedgerValid(l) && FindActive(l.sessions, code) == Some(i)
    ensures forall j :: 0 <= j < |l.sessions| && l.sessions[j].code == code ==> j == i
  {
  }

  /** `existsBySessionIdAndUserId`. */
  predicate HasRecord(records: seq<Record>, sessionId: nat, userId: int) {
    exists k :: 0 <= k < |records| && records[k].sessionId == sessionId && records[k].userId == userId
  }

  const InvalidCodeMessage: string := "Invalid or expired attendance code."
  const ExpiredMessage: string := "Attendance session has expired."
  const AlreadyMarkedMessage: string := "You have already marked attendance for this session."

  /** `markAttendance` as a transition of the ledger; a failure carries the message
      of the `IllegalArgumentException`. */
  function Mark(l: Ledger, user: User, code: string, now: int): (r: (Outcome<string>, Ledger))
    ensures r.0 == Fail(InvalidCodeMessage) <==>
              forall i :: 0 <= i < |l.sessions| ==> !ActiveWithCode(l.sessions[i], code)
    ensures r.0 == Fail(ExpiredMessage) ==>
              exists i :: 0 <= i < |l.sessions| && ActiveWithCode(l.sessions[i], code) && now > l.sessions[i].endTime
                          && r.1.sessions == l.sessions[i := l.sessions[i].(isActive := false)]
    ensures r.0.Pass? ==>
              exists i :: 0 <= i < |l.sessions| && ActiveWithCode(l.sessions[i], code) && now <= l.sessions[i].endTime
                          && !HasRecord(l.records, l.sessions[i].id, user.id)
                          && r.1.records == l.records + [Record(l.sessions[i].id, user.id, now)]
    ensures r.0.Fail? ==> r.1.records == l.records
    ensures r.0 != Fail(ExpiredMessage) ==> r.1.sessions == l.sessions
    ensures r.0.Fail? ==> r.0.error in {InvalidCodeMessage, ExpiredMessage, AlreadyMarkedMessage}
    ensures LedgerValid(l) ==> LedgerValid(r.1)
  {
    match FindActive(l.sessions, code)
    case None => (Fail(InvalidCodeMessage), l)
    case Some(i) =>
      var session := l.sessions[i];
      if now > session.endTime then
        (Fail(ExpiredMessage), l.(sessions := l.sessions[i := session.(isActive := false)]))
      else if HasRecord(l.records, session.id, user.id) then
        (Fail(AlreadyMarkedMessage), l)
      else
        var l' := l.(records := l.records + [Record(session.id, user.id, now)]);
        assert LedgerValid(l) ==> LedgerValid(l') by {
          if LedgerValid(l) {
            forall k1, k2 | 0 <= k1 < k2 < |l'.records|
              ensures l'.records[k1].sessionId != l'.records[k2].sessionId || l'.records[k1].userId != l'.records[k2].userId
            {
              if k2 == |l.records| {
                assert l'.records[k1] == l.records[k1];
              }
            }
          }
        }
        (Pass, l')
  }

  /** For the active session holding the code, the outcome is decided by the time and
      by the records alone: after the end it expires and is deactivated; before, a
      user already recorded is refused with nothing changed; anyone else is recorded
      once, with nothing else changed. */
  lemma MarkByCase(l: Ledger, user: User, code: string, now: int, i: nat)
    requires LedgerValid(l) && i < |l.sessions| && ActiveWithCode(l.sessions[i], code)
    ensures var s := l.sessions[i];
            now > s.endTime ==>
              Mark(l, user, code, now) == (Fail(ExpiredMessage), l.(sessions := l.sessions[i := s.(isActive := false)]))
    ensures var s := l.sessions[i];
            now <= s.endTime && HasRecord(l.records, s.id, user.id) ==>
              Mark(l, user, code, now) == (Fail(AlreadyMarkedMessage), l)
    ensures var s := l.sessions[i];
            now <= s.endTime && !HasRecord(l.records, s.id, user.id) ==>
              Mark(l, user, code, now) == (Pass, l.(records := l.records + [Record(s.id, user.id, now)]))
  {
  }

  /** A session can be marked at exactly its end time: only a strictly later instant expires it. */
  lemma MarkAtEndTimeAllowed(l: Ledger, user: User, code: string, i: nat)
    requires LedgerValid(l) && i < |l.sessions| && ActiveWithCode(l.sessions[i], code)
    requires !HasRecord(l.records, i, user.id)
    ensures Mark(l, user, code, l.sessions[i].endTime).0 == Pass
  {
    FoundIsOnlyHolder(l, code, FindActive(l.sessions, code).value);
  }

  /** Marking twice for the same session fails, at any instant the session is still open. */
  lemma {:induction false} MarkTwiceFails(l: Ledger, user: User, code: string, now: int, later: int)
    requires LedgerValid(l) && Mark(l, user, code, now).0 == Pass
    ensures var l' := Mark(l, user, code, now).1;
            var i := FindActive(l.sessions, code).value;
            later <= l.sessions[i].endTime ==> Mark(l', user, code, later).0 == Fail(AlreadyMarkedMessage)
  {
    var l' := Mark(l, user, code, now).1;
    var i := FindActive(l.sessions, code).value;
    assert l'.sessions == l.sessions;
    assert l'.records[|l.records|] == Record(l.sessions[i].id, user.id, now);
  }

  /** After an attempt on an expired session the session is inactive, so its code is
      refused as invalid from then on. */
  lemma {:induction false} ExpiredCodeStaysRefused(l: Ledger, user: User, code: string, now: int,
                                                   other: User, later: int)
    requires LedgerValid(l) && Mark(l, user, code, now).0 == Fail(ExpiredMessage)
    ensures Mark(Mark(l, user, code, now).1, other, code, later).0 == Fail(InvalidCodeMessage)
  {
    var l' := Mark(l, user, code, now).1;
    var i := FindActive(l.sessions, code).value;
    FoundIsOnlyHolder(l, code, i);
    forall j | 0 <= j < |l'.sessions| ensures !ActiveWithCode(l'.sessions[j], code) {
      if j != i {
        assert l'.sessions[j] == l.sessions[j];
      }
    }
  }

  // ---------------------------------------------------------------------------
  // Starting a session

  /** The first draw whose code no active session holds, from draw `k` on. */
  function FirstFreeDraw(sessions: seq<Session>, draws: seq<int>, k: nat): (r: nat)
    requires k <= |draws|
    requires forall j :: 0 <= j < |draws| ==> 0 <= draws[j] < CodeSpace
    requires exists j :: k <= j < |draws| && FindActive(sessions, SixDigitCode(draws[j])).None?
    ensures k <= r < |draws| && FindActive(sessions, SixDigitCode(draws[r])).None?
    ensures forall j :: k <= j < r ==> FindActive(sessions, SixDigitCode(draws[j])).Some?
    decreases |draws| - k
  {
    if FindActive(sessions, SixDigitCode(draws[k])).None? then k
    else FirstFreeDraw(sessions, draws, k + 1)
  }

  datatype StartError = DuplicateCode(code: string)

  const DefaultSessionDurationSeconds: int := 60
  const NanosPerSecond: int := 1_000_000_000

  /** What `startAttendanceSession` returns. */
  datatype SessionResponse = SessionResponse(id: nat, code: string, startTime: int, endTime: int, message: string)

  const StartedMessage: string := "Attendance session started successfully."

  /** Whether any session, active or not, holds this code (the unique column). */
  predicate CodeTaken(sessions: seq<Session>, code: string) {
    exists i :: 0 <= i < |sessions| && sessions[i].code == code
  }

  /** Saving a new active session with the chosen code: the unique constraint on
      `attendance_code` refuses it when an inactive session still holds the code. */
  function Start(l: Ledger, adminId: int, code: string, now: int, durationSeconds: int)
    : (r: (Result<SessionResponse, StartError>, Ledger))
    ensures r.0.Err? <==> CodeTaken(l.sessions, code)
    ensures r.0.Err? ==> r.1 == l
    ensures r.0.Ok? ==>
              var end := now + durationSeconds * NanosPerSecond;
              && r.1.records == l.records
              && r.1.sessions == l.sessions + [Session(|l.sessions|, adminId, code, now, end, true)]
              && r.0.value == SessionResponse(|l.sessions|, code, now, end, StartedMessage)
    ensures LedgerValid(l) ==> LedgerValid(r.1)
  {
    if CodeTaken(l.sessions, code) then (Err(DuplicateCode(code)), l)
    else
      var end := now + durationSeconds * NanosPerSecond;
      (Ok(SessionResponse(|l.sessions|, code, now, end, StartedMessage)),
       l.(sessions := l.sessions + [Session(|l.sessions|, adminId, code, now, end, true)]))
  }

  /** While every stored session is active, the code the draw loop settles on is
      free, so starting a session cannot collide with the unique column. */
  lemma StartSucceedsWhileAllActive(l: Ledger, adminId: int, code: string, now: int, durationSeconds: int)
    requires forall i :: 0 <= i < |l.sessions| ==> l.sessions[i].isActive
    requires FindActive(l.sessions, code).None?
    ensures Start(l, adminId, code, now, durationSeconds).0.Ok?
  {
  }

  /** A freshly started session accepts every avenger until its end time. */
  lemma {:induction false} StartedSessionAcceptsMarks(l: Ledger, adminId: int, code: string, now: int,
                                                      durationSeconds: int, user: User, at: int)
    requires LedgerValid(l) && Start(l, adminId, code, now, durationSeconds).0.Ok?
    requires at <= now + durationSeconds * NanosPerSecond
    ensures Mark(Start(l, adminId, code, now, durationSeconds).1, user, code, at).0 == Pass
  {
    var l' := Start(l, adminId, code, now, durationSeconds).1;
    var n := |l.sessions|;
    assert ActiveWithCode(l'.sessions[n], code);
    FoundIsOnlyHolder(l', code, FindActive(l'.sessions, code).value);
  }

  // ---------------------------------------------------------------------------
  // The service

  /** The service and its two repositories. The session duration is the
      `attendance.session.duration.seconds` setting. */
  class AttendanceService {
    const sessionDurationSeconds: int
    var sessions: seq<Session>
    var records: seq<Record>

    function Contents(): Ledger
      reads this
    {
      Ledger(sessions, records)
    }

    predicate Valid()
      reads this
    {
      LedgerValid(Contents())
    }

    constructor (durationSeconds: int)
      ensures sessionDurationSeconds == durationSeconds
      ensures sessions == [] && records == []
      ensures Valid()
    {
      sessionDurationSeconds := durationSeconds;
      sessions := [];
      records := [];
    }

    /** The service when `attendance.session.duration.seconds` is not set: 60 seconds. */
    constructor WithDefaultDuration()
      ensures sessionDurationSeconds == DefaultSessionDurationSeconds
      ensures sessions == [] && records == []
      ensures Valid()
    {
      sessionDurationSeconds := DefaultSessionDurationSeconds;
      sessions := [];
      records := [];
    }

    /** `startAttendanceSession`: draw codes until one is not held by an active
        session, then save a session open for the configured duration. `draws` are
        the successive results of `random.nextInt(1000000)`; the loop terminates
        because one of them is free. */
    method StartAttendanceSession(admin: User, draws: seq<int>, now: int)
      returns (result: Result<SessionResponse, StartError>)
      requires Valid()
      requires forall j :: 0 <= j < |draws| ==> 0 <= draws[j] < CodeSpace
      requires exists j :: 0 <= j < |draws| && FindActive(sessions, SixDigitCode(draws[j])).None?
      modifies this
      ensures Valid()
      ensures var code := SixDigitCode(draws[FirstFreeDraw(old(sessions), draws, 0)]);
              (result, Contents()) == Start(old(Contents()), admin.id, code, now, sessionDurationSeconds)
      ensures result.Ok? ==> |result.value.code| == CodeLength
      ensures result.Ok? ==> forall i :: 0 <= i < |old(sessions)| ==> !ActiveWithCode(old(sessions)[i], result.value.code)
    {
      ghost var first := FirstFreeDraw(sessions, draws, 0);
      var k := 0;
      var code := "";
      var uniqueCodeFound := false;
      while !uniqueCodeFound
        invariant 0 <= k <= first + 1
        invariant !uniqueCodeFound ==> k <= first
        invariant uniqueCodeFound ==> k == first + 1 && code == SixDigitCode(draws[first])
        decreases first + 1 - k, !uniqueCodeFound
      {
        code := SixDigitCode(draws[k]);
        if FindActive(sessions, code).None? {
          uniqueCodeFound := true;
        }
        k := k + 1;
      }

      var startTime := now;
      var endTime := startTime + sessionDurationSeconds * NanosPerSecond;
      if CodeTaken(sessions, code) {
        result := Err(DuplicateCode(code));
      } else {
        var id := |sessions|;
        sessions := sessions + [Session(id, admin.id, code, startTime, endTime, true)];
        result := Ok(SessionResponse(id, code, startTime, endTime, StartedMessage));
      }
    }

    /** `markAttendance`: the three checks in order, then one new record; a failure
        returns the message of the `IllegalArgumentException`. The deactivation of an
        expired session is kept as the method writes it. */
    method MarkAttendance(avenger: User, code: string, now: int) returns (outcome: Outcome<string>)
      requires Valid()
      modifies this
      ensures Valid()
      ensures (outcome, Contents()) == Mark(old(Contents()), avenger, code, now)
    {
      var found := FindActive(sessions, code);
      if found.None? {
        return Fail(InvalidCodeMessage);
      }
      var session := sessions[found.value];
      if now > session.endTime {
        sessions := sessions[found.value := session.(isActive := false)];
        return Fail(ExpiredMessage);
      }
      if HasRecord(records, session.id, avenger.id) {
        return Fail(AlreadyMarkedMessage);
      }
      records := records + [Record(session.id, avenger.id, now)];
      outcome := Pass;
    }
  }

  // ---------------------------------------------------------------------------
  // Monthly statistics

  predicate IsWorkDay(year: int, month: int, day: int)
    requires ValidMonth(month)
  {
    DayOfWeek(year, month, day) != SATURDAY && DayOfWeek(year, month, day) != SUNDAY
  }

  /** How many of days 1..last of the month are neither Saturday nor Sunday. */
  function CountWorkDays(year: int, month: int, last: int): (n: nat)
    requires ValidMonth(month)
    ensures 0 <= last ==> n <= last
    decreases if last < 0 then 0 else last
  {
    if last <= 0 then 0
    else CountWorkDays(year, month, last - 1) + WorkDayCount(year, month, last)
  }

  /** The workdays among days 1..last of the month. */
  function WorkDaySet(year: int, month: int, last: int): set<int>
    requires ValidMonth(month)
  {
    set d | 1 <= d <= last && IsWorkDay(year, month, d)
  }

  /** The count is the number of days 1..last that are neither Saturday nor Sunday. */
  lemma {:induction false} CountWorkDaysIsCardinality(year: int, month: int, last: int)
    requires ValidMonth(month)
    ensures CountWorkDays(year, month, last) == |WorkDaySet(year, month, last)|
    decreases if last < 0 then 0 else last
  {
    if last <= 0 {
      assert WorkDaySet(year, month, last) == {};
    } else {
      CountWorkDaysIsCardinality(year, month, last - 1);
      var before := WorkDaySet(year, month, last - 1);
      if IsWorkDay(year, month, last) {
        assert WorkDaySet(year, month, last) == before + {last};
      } else {
        assert WorkDaySet(year, month, last) == before;
      }
    }
  }

  function WorkDayCount(year: int, month: int, day: int): nat
    requires ValidMonth(month)
  {
    if IsWorkDay(year, month, day) then 1 else 0
  }

  function WeekdayCount(x: int): nat {
    if x % 7 < 5 then 1 else 0
  }

  /** Of seven consecutive day numbers, five fall on Monday to Friday. */
  lemma FiveOfSevenResidues(x: int)
    ensures WeekdayCount(x) + WeekdayCount(x + 1) + WeekdayCount(x + 2) + WeekdayCount(x + 3)
            + WeekdayCount(x + 4) + WeekdayCount(x + 5) + WeekdayCount(x + 6) == 5
  {
    ResidueOfShift(x, 1);
    ResidueOfShift(x, 2);
    ResidueOfShift(x, 3);
    ResidueOfShift(x, 4);
    ResidueOfShift(x, 5);
    ResidueOfShift(x, 6);
  }

  /** Adding less than seven moves the weekday index forward, wrapping past six. */
  lemma ResidueOfShift(x: int, k: int)
    requires 0 <= k < 7
    ensures (x + k) % 7 == if x % 7 + k < 7 then x % 7 + k else x % 7 + k - 7
  {
    assert x + k == 7 * (x / 7) + (x % 7 + k);
  }

  /** A day of the month is a workday exactly when its weekday index is below five. */
  lemma WorkDayByResidue(year: int, month: int, day: int)
    requires ValidMonth(month)
    ensures WorkDayCount(year, month, day) == WeekdayCount(EpochDay(year, month, 1) + day + 2)
  {
    EpochDayWithinMonth(year, month, day);
  }

  /** Any seven consecutive days hold exactly five workdays. */
  lemma {:induction false} WeekHasFiveWorkDays(year: int, month: int, last: int)
    requires ValidMonth(month) && 0 <= last
    ensures CountWorkDays(year, month, last + 7) == CountWorkDays(year, month, last) + 5
  {
    SevenDaysAdd(year, month, last);
    SevenDaysByResidue(year, month, last);
    FiveOfSevenResidues(EpochDay(year, month, 1) + last + 3);
  }

  /** The workdays of days `last + 1` to `last + 7`, one by one. */
  lemma SevenDaysAdd(year: int, month: int, last: int)
    requires ValidMonth(month) && 0 <= last
    ensures CountWorkDays(year, month, last + 7) == CountWorkDays(year, month, last)
            + WorkDayCount(year, month, last + 1) + WorkDayCount(year, month, last + 2)
            + WorkDayCount(year, month, last + 3) + WorkDayCount(year, month, last + 4)
            + WorkDayCount(year, month, last + 5) + WorkDayCount(year, month, last + 6)
            + WorkDayCount(year, month, last + 7)
  {
    assert CountWorkDays(year, month, last + 7) == CountWorkDays(year, month, last + 6) + WorkDayCount(year, month, last + 7);
    assert CountWorkDays(year, month, last + 6) == CountWorkDays(year, month, last + 5) + WorkDayCount(year, month, last + 6);
    assert CountWorkDays(year, month, last + 5) == CountWorkDays(year, month, last + 4) + WorkDayCount(year, month, last + 5);
    assert CountWorkDays(year, month, last + 4) == CountWorkDays(year, month, last + 3) + WorkDayCount(year, month, last + 4);
    assert CountWorkDays(year, month, last + 3) == CountWorkDays(year, month, last + 2) + WorkDayCount(year, month, last + 3);
    assert CountWorkDays(year, month, last + 2) == CountWorkDays(year, month, last + 1) + WorkDayCount(year, month, last + 2);
  }

  /** Days `last + 1` to `last + 7` are workdays by their weekday index. */
  lemma SevenDaysByResidue(year: int, month: int, last: int)
    requires ValidMonth(month)
    ensures var x := EpochDay(year, month, 1) + last + 3;
            WorkDayCount(year, month, last + 1) + WorkDayCount(year, month, last + 2)
            + WorkDayCount(year, month, last + 3) + WorkDayCount(year, month, last + 4)
            + WorkDayCount(year, month, last + 5) + WorkDayCount(year, month, last + 6)
            + WorkDayCount(year, month, last + 7)
            == WeekdayCount(x) + WeekdayCount(x + 1) + WeekdayCount(x + 2) + WeekdayCount(x + 3)
               + WeekdayCount(x + 4) + WeekdayCount(x + 5) + WeekdayCount(x + 6)
  {
    WorkDayByResidue(year, month, last + 1);
    WorkDayByResidue(year, month, last + 2);
    WorkDayByResidue(year, month, last + 3);
    WorkDayByResidue(year, month, last + 4);
    WorkDayByResidue(year, month, last + 5);
    WorkDayByResidue(year, month, last + 6);
    WorkDayByResidue(year, month, last + 7);
  }

  /** The `totalWorkDaysInMonth` of the statistics. */
  function WorkDays(year: int, month: int): (n: nat)
    requires ValidMonth(month)
    ensures 20 <= n <= 23
    ensures MonthLength(year, month) == 28 ==> n == 20
  {
    var length := MonthLength(year, month);
    WeekHasFiveWorkDays(year, month, length - 28 + 21);
    WeekHasFiveWorkDays(year, month, length - 28 + 14);
    WeekHasFiveWorkDays(year, month, length - 28 + 7);
    WeekHasFiveWorkDays(year, month, length - 28);
    CountWorkDays(year, month, length)
  }

  /** `daysAbsent`: workdays minus days present, never below zero. */
  function DaysAbsent(workDays: int, daysPresent: int): (absent: int)
    ensures absent >= 0
    ensures daysPresent <= workDays ==> daysPresent + absent == workDays
    ensures daysPresent >= workDays ==> absent == 0
  {
    var absent := workDays - daysPresent;
    if absent < 0 then 0 else absent
  }

  /** The integer part of `AttendanceStatsDTO`. */
  datatype AttendanceStats = AttendanceStats(daysPresent: int, daysAbsent: int)

  /** The statistics of a month given the number of records counted in it. */
  function MonthlyStats(year: int, month: int, daysPresent: nat): (stats: AttendanceStats)
    requires ValidMonth(month)
    ensures stats.daysPresent == daysPresent
    ensures 0 <= stats.daysAbsent <= WorkDays(year, month)
    ensures daysPresent >= WorkDays(year, month) ==> stats.daysAbsent == 0
    ensures daysPresent <= WorkDays(year, month) ==> stats.daysPresent + stats.daysAbsent == WorkDays(year, month)
  {
    AttendanceStats(daysPresent, DaysAbsent(WorkDays(year, month), daysPresent))
  }
}
