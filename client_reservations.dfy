/** The "my reservations" page: the 24-hour to 12-hour time display, the
    split of the caller's reservations into upcoming and past, the status
    badge and action buttons of a card, and the edit form. The form's state
    (`currentEditReservation`) is an `EditForm` object, and its time list
    merges the reservation's own hour into the free hours of the day.

    Instants are milliseconds since the epoch; a reservation's `fecha` is a
    day number, and the page reads it as midnight UTC of that day. */
module ClientReservations {
  import opened Wrappers
  import opened Strings
  import opened Models
  import opened ClientMain
  import ReservationRoutes

  // ----- numbers as text ---------------------------------------------------

  function DigitValue(c: char): nat
    requires IsDigit(c)
  {
    c as int - '0' as int
  }

  function DigitChar(n: nat): (c: char)
    requires n < 10
    ensures IsDigit(c) && DigitValue(c) == n
  {
    ('0' as int + n) as char
  }

  /** The number a string of decimal digits denotes. */
  function DigitsValue(d: string): nat
    requires AllDigits(d)
  {
    if d == [] then 0 else DigitsValue(d[..|d| - 1]) * 10 + DigitValue(d[|d| - 1])
  }

  /** The decimal text of a natural number, as template strings print it:
      it reads back as the same number and has no leading zero. */
  function NatToString(n: nat): (s: string)
    ensures s != [] && AllDigits(s) && DigitsValue(s) == n
    ensures n > 0 ==> s[0] != '0'
  {
    if n < 10 then [DigitChar(n)]
    else
      var s := NatToString(n / 10) + [DigitChar(n % 10)];
      assert s[..|s| - 1] == NatToString(n / 10);
      s
  }

  function IntToString(n: int): string {
    if n < 0 then "-" + NatToString(-n) else NatToString(n)
  }

  /** The longest prefix of `s` made of digits. */
  function LeadingDigits(s: string): (d: string)
    ensures AllDigits(d) && d <= s
    ensures |d| < |s| ==> !IsDigit(s[|d|])
  {
    if s == [] || !IsDigit(s[0]) then []
    else
      var rest := LeadingDigits(s[1..]);
      assert [s[0]] + rest <= s;
      [s[0]] + rest
  }

  /** `parseInt(s)` without a radix: leading whitespace is skipped, a sign
      is read, then the longest run of decimal digits; `None` stands for NaN
      when there is no digit. */
  function ParseInt(s: string): (n: Option<int>)
    ensures s != [] && AllDigits(s) ==> n == Some(DigitsValue(s))
  {
    var t := TrimStart(s);
    var negative := t != [] && t[0] == '-';
    var unsigned := if t != [] && (t[0] == '-' || t[0] == '+') then t[1..] else t;
    var d := LeadingDigits(unsigned);
    assert s != [] && AllDigits(s) ==> d == s;
    if d == [] then None
    else Some(if negative then -(DigitsValue(d) as int) else DigitsValue(d))
  }

  // ----- formatTime --------------------------------------------------------

  /** `a % b` of JavaScript, whose sign follows the dividend. */
  function JsRem(a: int, b: int): int
    requires b > 0
  {
    if a >= 0 then a % b else -((-a) % b)
  }

  /** `hour24 % 12 || 12`: the hour on a 12-hour clock, with 0 shown as 12. */
  function Hour12(h: int): (r: int)
    ensures 0 <= h ==> 1 <= r <= 12 && r % 12 == h % 12
  {
    var m := JsRem(h, 12);
    if m == 0 then 12 else m
  }

  /** Back from the 12-hour clock to the 24-hour one. */
  function To24(h12: int, pm: bool): int {
    h12 % 12 + (if pm then 12 else 0)
  }

  /** The hour and the AM/PM suffix `formatTime` shows together identify
      the hour of the day. */
  lemma Hour12RoundTrip(h: int)
    requires 0 <= h < 24
    ensures To24(Hour12(h), h >= 12) == h
  {
  }

  /** Up to the first ':' of `s`, or all of `s`. */
  function BeforeColon(s: string): (r: string)
    ensures r <= s && ':' !in r
  {
    var c := IndexOf(s, ':');
    if c.None? then s else s[..c.value]
  }

  /** `formatTime(time)`: the fields before and after the first ':' are the
      hour and the minutes (`undefined` when there is no ':'); the hour goes
      through `parseInt` and is shown on a 12-hour clock with 'AM' or 'PM',
      NaN showing as 12 with 'AM'; the minutes are copied as they are. */
  function FormatTime(time: string): string {
    var colon := IndexOf(time, ':');
    var hours := if colon.None? then time else time[..colon.value];
    var minutes := if colon.None? then "undefined" else BeforeColon(time[colon.value + 1..]);
    var h := ParseInt(hours);
    var hour12 := if h.None? then "12" else IntToString(Hour12(h.value));
    var suffix := if h.Some? && h.value >= 12 then "PM" else "AM";
    hour12 + ":" + minutes + " " + suffix
  }

  /** On 'HH:MM' with a digit hour, `formatTime` shows the hour modulo 12
      (0 as 12), copies the minutes and says 'PM' exactly from 12 on. */
  lemma FormatTimeOfHour(hh: string, mm: string)
    requires hh != [] && AllDigits(hh) && ':' !in mm
    ensures var h := DigitsValue(hh);
            FormatTime(hh + ":" + mm)
              == NatToString(Hour12(h)) + ":" + mm + " " + (if h >= 12 then "PM" else "AM")
  {
    var time := hh + ":" + mm;
    assert time[|hh|] == ':';
    forall k | 0 <= k < |hh| ensures time[k] != ':' {
      assert time[k] == hh[k];
    }
    assert IndexOf(time, ':') == Some(|hh|);
    assert time[..|hh|] == hh;
    assert time[|hh| + 1..] == mm;
    assert IndexOf(mm, ':').None?;
  }

  lemma NoonParts()
    ensures DigitsValue("12") == 12 && NatToString(12) == "12"
    ensures "12" + ":" + "00" == "12:00" && "12" + ":" + "00" + " " + "PM" == "12:00 PM"
  {
    assert "12"[..1] == "1" && "1"[..0] == "";
    assert NatToString(12) == NatToString(1) + "2";
  }

  /** Noon shows as '12:00 PM'. */
  lemma FormatNoon()
    ensures FormatTime("12:00") == "12:00 PM"
  {
    NoonParts();
    FormatTimeOfHour("12", "00");
  }

  lemma SixPmParts()
    ensures DigitsValue("18") == 18 && NatToString(6) == "6"
    ensures "18" + ":" + "00" == "18:00" && "6" + ":" + "00" + " " + "PM" == "6:00 PM"
  {
    assert "18"[..1] == "1" && "1"[..0] == "";
  }

  /** The last hour of the schedule shows as '6:00 PM'. */
  lemma FormatSixPm()
    ensures FormatTime("18:00") == "6:00 PM"
  {
    SixPmParts();
    FormatTimeOfHour("18", "00");
  }

  lemma MidnightParts()
    ensures DigitsValue("00") == 0 && NatToString(12) == "12"
    ensures "00" + ":" + "15" == "00:15" && "12" + ":" + "15" + " " + "AM" == "12:15 AM"
  {
    assert "00"[..1] == "0" && "0"[..0] == "";
    assert NatToString(12) == NatToString(1) + "2";
  }

  /** Hour 0 shows as 12 AM. */
  lemma FormatMidnight()
    ensures FormatTime("00:15") == "12:15 AM"
  {
    MidnightParts();
    FormatTimeOfHour("00", "15");
  }

  /** Without a ':' the minutes print as `undefined`. */
  lemma FormatTimeOfHourOnly(hh: string)
    requires hh != [] && AllDigits(hh)
    ensures var h := DigitsValue(hh);
            FormatTime(hh) == NatToString(Hour12(h)) + ":" + "undefined" + " " + (if h >= 12 then "PM" else "AM")
  {
    forall k | 0 <= k < |hh| ensures hh[k] != ':' {
      assert IsDigit(hh[k]);
    }
    assert IndexOf(hh, ':').None?;
    assert ParseInt(hh) == Some(DigitsValue(hh));
  }

  // ----- the split into upcoming and past ----------------------------------

  const DayMs: int := 86400000

  /** The (UTC) day containing the instant `now`. */
  function DayOf(now: int): int {
    now / DayMs
  }

  /** The page's test for an upcoming reservation as written: the day's
      midnight is not before the current instant. */
  predicate UpcomingAsWritten(r: Reservation, now: int) {
    r.fecha * DayMs >= now && r.estado != Cancelada
  }

  /** ... and its test for a past one. */
  predicate PastAsWritten(r: Reservation, now: int) {
    r.fecha * DayMs < now || r.estado == Cancelada
  }

  /** As written, the two tests still split every reservation: each one is
      upcoming or past, never both. */
  lemma AsWrittenIsPartition(r: Reservation, now: int)
    ensures UpcomingAsWritten(r, now) <==> !PastAsWritten(r, now)
  {
  }

  /** As written, a live reservation for today is past as soon as the day
      has begun: it is listed under the history, without its edit and
      cancel buttons, though the card has a "today" marker for upcoming
      reservations. */
  lemma TodayListedAsPast(r: Reservation, now: int)
    requires r.fecha == DayOf(now) && now % DayMs != 0 && r.estado != Cancelada
    ensures PastAsWritten(r, now) && !UpcomingAsWritten(r, now)
    ensures IsUpcoming(r, now) && !IsPast(r, now)
  {
    assert now == DayOf(now) * DayMs + now % DayMs;
  }

  /** A reservation for noon today, seen at 10:00 UTC. */
  lemma TodayListedAsPastExample()
    ensures var r := Reservation(1, 2, 3, 20000, "12:00", "", Pendiente, 0);
            var now := 20000 * DayMs + 10 * 3600000;
            !UpcomingAsWritten(r, now) && IsUpcoming(r, now)
  {
  }

  /** The split by day: a reservation is upcoming from its day on, unless
      cancelled. */
  predicate IsUpcoming(r: Reservation, now: int) {
    r.fecha >= DayOf(now) && r.estado != Cancelada
  }

  predicate IsPast(r: Reservation, now: int) {
    r.fecha < DayOf(now) || r.estado == Cancelada
  }

  /** Away from today both tests agree: the correction changes only how
      today's reservations are listed. */
  lemma SplitsAgreeAwayFromToday(r: Reservation, now: int)
    requires r.fecha != DayOf(now)
    ensures UpcomingAsWritten(r, now) <==> IsUpcoming(r, now)
    ensures PastAsWritten(r, now) <==> IsPast(r, now)
  {
    var d := DayOf(now);
    assert d * DayMs <= now < (d + 1) * DayMs;
    if r.fecha > d {
      assert r.fecha * DayMs >= (d + 1) * DayMs;
    } else {
      assert r.fecha * DayMs <= (d - 1) * DayMs;
    }
  }

  /** The upcoming reservations, in listed order. */
  function Upcoming(rs: seq<Reservation>, now: int): (u: seq<Reservation>)
    ensures forall x :: x in u <==> x in rs && IsUpcoming(x, now)
  {
    if rs == [] then []
    else (if IsUpcoming(rs[0], now) then [rs[0]] else []) + Upcoming(rs[1..], now)
  }

  /** The past (or cancelled) reservations, in listed order. */
  function Past(rs: seq<Reservation>, now: int): (p: seq<Reservation>)
    ensures forall x :: x in p <==> x in rs && IsPast(x, now)
  {
    if rs == [] then []
    else (if IsPast(rs[0], now) then [rs[0]] else []) + Past(rs[1..], now)
  }

  /** Every reservation is listed exactly once, in one of the two sections;
      a cancelled one is always past. */
  lemma {:induction false} SplitIsPartition(rs: seq<Reservation>, now: int)
    ensures multiset(Upcoming(rs, now)) + multiset(Past(rs, now)) == multiset(rs)
    ensures forall x :: x in rs && x.estado == Cancelada ==> x in Past(rs, now) && x !in Upcoming(rs, now)
  {
    if rs != [] {
      SplitIsPartition(rs[1..], now);
      assert rs == [rs[0]] + rs[1..];
    }
  }

  // ----- cards -------------------------------------------------------------

  datatype Badge = Badge(cssClass: string, caption: string)

  /** The status badge of a card; an estado outside the four gets none. */
  function StatusBadge(estado: string): (b: Option<Badge>)
    ensures b.Some? <==> ParseEstado(estado).Some?
  {
    match estado
    case "pendiente" => Some(Badge("pending", "Pendiente"))
    case "confirmada" => Some(Badge("confirmed", "Confirmada"))
    case "completada" => Some(Badge("completed", "Completada"))
    case "cancelada" => Some(Badge("cancelled", "Cancelada"))
    case _ => None
  }

  /** Each state has a badge of its own. */
  lemma BadgesDistinct(e: Estado, f: Estado)
    ensures StatusBadge(EstadoName(e)).Some?
    ensures e != f ==> StatusBadge(EstadoName(e)).value.cssClass != StatusBadge(EstadoName(f)).value.cssClass
  {
  }

  /** A card offers the edit and cancel buttons when it is drawn in the
      upcoming section and the reservation is not cancelled. */
  predicate ShowsActions(r: Reservation, inUpcomingSection: bool) {
    inUpcomingSection && r.estado != Cancelada
  }

  /** With the split, the buttons are on exactly the upcoming reservations'
      cards, and never on a card of the history. */
  lemma ActionsOnExactlyUpcoming(rs: seq<Reservation>, now: int, x: Reservation)
    requires x in rs
    ensures ShowsActions(x, x in Upcoming(rs, now)) <==> IsUpcoming(x, now)
    ensures x in Past(rs, now) ==> !ShowsActions(x, x in Upcoming(rs, now))
  {
  }

  // ----- the reservation forms' checks -------------------------------------

  const DateMessage := "Por favor selecciona una fecha"
  const HourMessage := "Por favor selecciona un horario"
  const PastDateMessage := "No puedes reservar en fechas pasadas"

  /** The date and hour checks of both reservation forms, in order: a date
      is chosen, an hour is chosen, and the date, read as UTC midnight, is
      not before `todayStart`, the local midnight of today. */
  function ScheduleCheck(fecha: Option<int>, hora: string, todayStart: int): (o: Outcome)
    ensures o == Sent <==> fecha.Some? && hora != "" && fecha.value * DayMs >= todayStart
    ensures o == Rejected(DateMessage) <==> fecha.None?
    ensures o == Rejected(HourMessage) <==> fecha.Some? && hora == ""
    ensures o == Rejected(PastDateMessage) <==> fecha.Some? && hora != "" && fecha.value * DayMs < todayStart
    ensures o != Sent ==> o.Rejected?
  {
    if fecha.None? then Rejected(DateMessage)
    else if hora == "" then Rejected(HourMessage)
    else if fecha.value * DayMs < todayStart then Rejected(PastDateMessage)
    else Sent
  }

  /** Where local time is UTC, the form sends exactly the dates from today
      on. */
  lemma ScheduleCheckFromToday(d: int, hora: string, today: int)
    requires hora != ""
    ensures ScheduleCheck(Some(d), hora, today * DayMs) == Sent <==> d >= today
  {
    if d < today {
      assert d * DayMs <= (today - 1) * DayMs;
    }
  }

  // ----- the edit form -----------------------------------------------------

  /** The hours the form falls back to when the server does not answer OK. */
  const FallbackTimes: seq<string> :=
    ["09:00", "10:00", "11:00", "12:00", "14:00", "15:00", "16:00", "17:00", "18:00"]

  /** The fallback is what the server answers for a day with no bookings. */
  lemma FallbackIsEmptyDay(d: int)
    ensures FallbackTimes == ReservationRoutes.AvailableSlots([], d)
  {
    ReservationRoutes.SlotsAscending();
    ReservationRoutes.AvailabilityDetermined([], d, FallbackTimes);
  }

  /** The answer to the request for a day's free hours. */
  datatype TimesResponse = Answered(times: seq<string>) | NotOk | Unreachable

  /** `find` by id over the listed reservations: the first one with that
      id. */
  function FindById(rs: seq<Reservation>, id: Id): (r: Option<Reservation>)
    ensures r.Some? ==> exists k :: 0 <= k < |rs| && rs[k] == r.value && r.value.id == id
                                    && forall j :: 0 <= j < k ==> rs[j].id != id
    ensures r.None? ==> forall x :: x in rs ==> x.id != id
  {
    if rs == [] then None
    else if rs[0].id == id then Some(rs[0])
    else FindById(rs[1..], id)
  }

  class EditForm {
    /** The reservation the edit form is open on, if any. */
    var current: Option<Reservation>

    constructor ()
      ensures current == None
    {
      current := None;
    }

    /** `openEditModal`: opens the form on the first listed reservation with
        that id; an unknown id leaves the form as it was. */
    method Open(listed: seq<Reservation>, id: Id)
      modifies this
      ensures FindById(listed, id).Some? ==> current == FindById(listed, id)
      ensures FindById(listed, id).None? ==> current == old(current)
    {
      var k := 0;
      while k < |listed|
        invariant 0 <= k <= |listed|
        invariant FindById(listed, id) == FindById(listed[k..], id)
      {
        if listed[k].id == id {
          current := Some(listed[k]);
          return;
        }
        assert listed[k..][1..] == listed[k + 1..];
        k := k + 1;
      }
    }

    /** `closeEditModal`. */
    method Close()
      modifies this
      ensures current == None
    {
      current := None;
    }

    /** `loadEditAvailableTimes` once a date is chosen: the server's free
        hours, or the fallback on a non-OK answer, or none when the request
        fails. When the form is open on a reservation whose hour is missing,
        that hour is pushed and the list sorted. */
    method TimeOptions(response: TimesResponse) returns (times: seq<string>)
      ensures response.Unreachable? ==> times == []
      ensures !response.Unreachable? ==>
                var available := if response.Answered? then response.times else FallbackTimes;
                && (current.None? ==> times == available)
                && (current.Some? ==> current.value.hora in times)
                && (current.Some? && current.value.hora in available ==> times == available)
                && (current.Some? && current.value.hora !in available ==>
                      Sorted(times) && multiset(times) == multiset(available) + multiset{current.value.hora})
    {
      if response.Unreachable? {
        return [];
      }
      times := if response.Answered? then response.times else FallbackTimes;
      if current.Some? && current.value.hora !in times {
        times := times + [current.value.hora];
        times := Sort(times);
        assert current.value.hora in multiset(times);
      }
    }

    /** `handleEditReservation`'s checks: nothing happens when the form is
        not open on a reservation; otherwise the schedule checks decide. */
    method Submit(fecha: Option<int>, hora: string, todayStart: int) returns (o: Outcome)
      ensures current.None? ==> o == Ignored
      ensures current.Some? ==> o == ScheduleCheck(fecha, hora, todayStart)
    {
      if current.None? {
        return Ignored;
      }
      o := ScheduleCheck(fecha, hora, todayStart);
    }
  }
}
