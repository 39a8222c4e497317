/**
 * The dashboard's meeting helpers: the mapping of server meetings to the
 * display record, grouping by date in order of first appearance, the
 * 24-hour to 12-hour time format, the end-time arithmetic, and how many
 * participant avatars are shown.
 */
module MeetingDisplay {
  import opened Wrappers
  import opened Strings
  import opened Numbers

  /** A meeting as the server returns it (the fields the dashboard reads). */
  datatype ApiMeeting = ApiMeeting(mongoId: string, title: string, date: string, startTime: string, duration: int, owner: string)

  /** A meeting as the dashboard shows it. */
  datatype Meeting = Meeting(id: string, title: string, date: string, startTime: string, duration: int,
                             participants: seq<string>, color: string)

  datatype Group = Group(date: string, meetings: seq<Meeting>)

  const DefaultColor := "bg-blue-100 text-blue-900"

  /** The list's mapping: the server id becomes the id, participants are empty, the colour is fixed, the rest is copied. */
  function FromApi(a: ApiMeeting): (m: Meeting)
    ensures m.id == a.mongoId && m.title == a.title && m.date == a.date
    ensures m.startTime == a.startTime && m.duration == a.duration
    ensures m.participants == [] && m.color == DefaultColor
  {
    Meeting(a.mongoId, a.title, a.date, a.startTime, a.duration, [], DefaultColor)
  }

  /** `response.meetings.map(...)`: every server meeting formatted, in the server's order. */
  function FormatMeetings(api: seq<ApiMeeting>): (ms: seq<Meeting>)
    ensures |ms| == |api|
    ensures forall i | 0 <= i < |api| :: ms[i] == FromApi(api[i])
  {
    seq(|api|, i requires 0 <= i < |api| => FromApi(api[i]))
  }

  /** The server meetings with date `d`, in their original order. */
  function ApiOnDate(api: seq<ApiMeeting>, d: string): seq<ApiMeeting>
    decreases |api|
  {
    if |api| == 0 then []
    else ApiOnDate(api[..|api| - 1], d) + (if api[|api| - 1].date == d then [api[|api| - 1]] else [])
  }

  lemma FormatAppend(a: seq<ApiMeeting>, b: seq<ApiMeeting>)
    ensures FormatMeetings(a + b) == FormatMeetings(a) + FormatMeetings(b)
  {
  }

  /**
   * Formatting keeps each meeting's date, so picking one date's meetings
   * commutes with it: the dashboard's meetings of date `d` are the server's
   * meetings of date `d`, formatted, in the server's order.
   */
  lemma {:induction false} FilterFormatted(api: seq<ApiMeeting>, d: string)
    ensures Filter(FormatMeetings(api), d) == FormatMeetings(ApiOnDate(api, d))
    decreases |api|
  {
    if |api| > 0 {
      var init := api[..|api| - 1];
      var last := api[|api| - 1];
      var ms := FormatMeetings(api);
      assert ms[..|ms| - 1] == FormatMeetings(init);
      FilterFormatted(init, d);
      FormatAppend(ApiOnDate(init, d), if last.date == d then [last] else []);
    }
  }

  /** The meetings with date `d`, in their original order. */
  function Filter(ms: seq<Meeting>, d: string): (r: seq<Meeting>)
    ensures |r| <= |ms|
    ensures forall i | 0 <= i < |r| :: r[i].date == d
    decreases |ms|
  {
    if |ms| == 0 then []
    else Filter(ms[..|ms| - 1], d) + (if ms[|ms| - 1].date == d then [ms[|ms| - 1]] else [])
  }

  /** Filtering distributes over concatenation, so it never reorders meetings. */
  lemma {:induction false} FilterAppend(a: seq<Meeting>, b: seq<Meeting>, d: string)
    ensures Filter(a + b, d) == Filter(a, d) + Filter(b, d)
    decreases |b|
  {
    if |b| > 0 {
      var b' := b[..|b| - 1];
      assert (a + b)[..|a + b| - 1] == a + b';
      FilterAppend(a, b', d);
    } else {
      assert a + b == a;
    }
  }

  /** A meeting is in `Filter(ms, d)` exactly when it is in `ms` and has date `d`. */
  lemma {:induction false} FilterMembership(ms: seq<Meeting>, d: string, m: Meeting)
    ensures m in Filter(ms, d) <==> m in ms && m.date == d
    decreases |ms|
  {
    if |ms| > 0 {
      FilterMembership(ms[..|ms| - 1], d, m);
      assert ms == ms[..|ms| - 1] + [ms[|ms| - 1]];
    }
  }

  /** Some meeting has date `d`. */
  predicate HasDate(ms: seq<Meeting>, d: string) {
    exists i | 0 <= i < |ms| :: ms[i].date == d
  }

  /** A date occurs in a list exactly when it occurs before the last meeting or is the last meeting's date. */
  lemma HasDateLast(ms: seq<Meeting>, d: string)
    requires |ms| > 0
    ensures HasDate(ms, d) <==> HasDate(ms[..|ms| - 1], d) || ms[|ms| - 1].date == d
  {
    var p := ms[..|ms| - 1];
    if HasDate(ms, d) && ms[|ms| - 1].date != d {
      var i :| 0 <= i < |ms| && ms[i].date == d;
      assert p[i] == ms[i];
    }
    if HasDate(p, d) {
      var i :| 0 <= i < |p| && p[i].date == d;
      assert ms[i] == p[i];
    }
  }

  /** When no meeting has date `d`, filtering on `d` leaves nothing. */
  lemma {:induction false} FilterEmpty(ms: seq<Meeting>, d: string)
    requires !HasDate(ms, d)
    ensures Filter(ms, d) == []
    decreases |ms|
  {
    if |ms| > 0 {
      HasDateLast(ms, d);
      FilterEmpty(ms[..|ms| - 1], d);
    }
  }

  /** The distinct dates, each where it first appears. */
  function Dates(ms: seq<Meeting>): (ds: seq<string>)
    ensures forall i, j | 0 <= i < j < |ds| :: ds[i] != ds[j]
    ensures forall d :: d in ds <==> HasDate(ms, d)
    decreases |ms|
  {
    if |ms| == 0 then []
    else
      var p := ms[..|ms| - 1];
      var ds := Dates(p);
      var d := ms[|ms| - 1].date;
      assert forall x :: HasDate(ms, x) <==> HasDate(p, x) || x == d by {
        forall x
          ensures HasDate(ms, x) <==> HasDate(p, x) || x == d
        {
          HasDateLast(ms, x);
        }
      }
      if d in ds then ds else ds + [d]
  }

  /** The position of the first meeting with date `d`. */
  function FirstIndex(ms: seq<Meeting>, d: string): (k: nat)
    requires HasDate(ms, d)
    ensures k < |ms| && ms[k].date == d
    ensures forall j | 0 <= j < k :: ms[j].date != d
  {
    if ms[0].date == d then 0
    else
      DateInTail(ms, d);
      1 + FirstIndex(ms[1..], d)
  }

  lemma DateInTail(ms: seq<Meeting>, d: string)
    requires HasDate(ms, d) && |ms| > 0 && ms[0].date != d
    ensures HasDate(ms[1..], d)
  {
    var i :| 0 <= i < |ms| && ms[i].date == d;
    assert ms[1..][i - 1] == ms[i];
  }

  /** Adding a meeting at the end does not move the first occurrence of a date already present. */
  lemma FirstIndexInit(ms: seq<Meeting>, d: string)
    requires |ms| > 0 && HasDate(ms[..|ms| - 1], d)
    ensures HasDate(ms, d) && FirstIndex(ms, d) == FirstIndex(ms[..|ms| - 1], d)
  {
    var p := ms[..|ms| - 1];
    var k := FirstIndex(p, d);
    assert ms[k] == p[k];
    var k' := FirstIndex(ms, d);
    assert forall j | 0 <= j < |p| :: ms[j] == p[j];
  }

  /** The dates come in the order in which each first appears among the meetings. */
  lemma {:induction false} DatesInFirstSeenOrder(ms: seq<Meeting>)
    ensures forall i | 0 <= i < |Dates(ms)| :: HasDate(ms, Dates(ms)[i])
    ensures forall i, j | 0 <= i < j < |Dates(ms)| :: FirstIndex(ms, Dates(ms)[i]) < FirstIndex(ms, Dates(ms)[j])
    decreases |ms|
  {
    if |ms| > 0 {
      var p, m := ms[..|ms| - 1], ms[|ms| - 1];
      DatesInFirstSeenOrder(p);
      var ds, all := Dates(p), Dates(ms);
      forall i | 0 <= i < |ds|
        ensures HasDate(ms, ds[i]) && FirstIndex(ms, ds[i]) == FirstIndex(p, ds[i])
      {
        FirstIndexInit(ms, ds[i]);
      }
      if m.date in ds {
        assert all == ds;
      } else {
        assert all == ds + [m.date];
        LastFirstSeen(ms);
        forall i, j | 0 <= i < j < |all|
          ensures FirstIndex(ms, all[i]) < FirstIndex(ms, all[j])
        {
          if j == |ds| {
            assert FirstIndex(p, ds[i]) < |p|;
          }
        }
      }
    }
  }

  /** A date that does not occur before the last meeting first occurs at the last meeting. */
  lemma LastFirstSeen(ms: seq<Meeting>)
    requires |ms| > 0 && !HasDate(ms[..|ms| - 1], ms[|ms| - 1].date)
    ensures HasDate(ms, ms[|ms| - 1].date) && FirstIndex(ms, ms[|ms| - 1].date) == |ms| - 1
  {
    var p, d := ms[..|ms| - 1], ms[|ms| - 1].date;
    assert ms[|p|].date == d;
    assert forall j | 0 <= j < |p| :: ms[j] == p[j];
  }

  /** Where the group for date `d` is, if there is one. */
  function FindGroup(gs: seq<Group>, d: string): (k: int)
    ensures -1 <= k < |gs|
    ensures k >= 0 ==> gs[k].date == d
    ensures k == -1 ==> forall i | 0 <= i < |gs| :: gs[i].date != d
  {
    if |gs| == 0 then -1
    else if gs[|gs| - 1].date == d then |gs| - 1
    else FindGroup(gs[..|gs| - 1], d)
  }

  /** One step of the `forEach`: the meeting joins its date's group, which is created at the end if new. */
  function AddMeeting(gs: seq<Group>, m: Meeting): (r: seq<Group>) {
    var k := FindGroup(gs, m.date);
    if k >= 0 then gs[k := gs[k].(meetings := gs[k].meetings + [m])]
    else gs + [Group(m.date, [m])]
  }

  /**
   * `groupMeetingsByDate`: one group per distinct date, in order of first
   * appearance, holding exactly the meetings of that date in input order.
   */
  function GroupByDate(ms: seq<Meeting>): (gs: seq<Group>)
    ensures |gs| == |Dates(ms)|
    ensures forall i | 0 <= i < |gs| :: gs[i].date == Dates(ms)[i] && gs[i].meetings == Filter(ms, Dates(ms)[i])
    decreases |ms|
  {
    if |ms| == 0 then []
    else
      var gs := GroupByDate(ms[..|ms| - 1]);
      GroupStep(ms, gs);
      AddMeeting(gs, ms[|ms| - 1])
  }

  /** Grouping one more meeting keeps the groups equal to the distinct dates and their filters. */
  lemma GroupStep(ms: seq<Meeting>, gs: seq<Group>)
    requires |ms| > 0
    requires var p := ms[..|ms| - 1];
             && |gs| == |Dates(p)|
             && forall i | 0 <= i < |gs| :: gs[i].date == Dates(p)[i] && gs[i].meetings == Filter(p, Dates(p)[i])
    ensures var r := AddMeeting(gs, ms[|ms| - 1]);
            && |r| == |Dates(ms)|
            && forall i | 0 <= i < |r| :: r[i].date == Dates(ms)[i] && r[i].meetings == Filter(ms, Dates(ms)[i])
  {
    var p, m := ms[..|ms| - 1], ms[|ms| - 1];
    var ds := Dates(p);
    var r := AddMeeting(gs, m);
    var k := FindGroup(gs, m.date);
    if k >= 0 {
      assert ds[k] == m.date;
      assert Dates(ms) == ds;
      forall i | 0 <= i < |r|
        ensures r[i].date == ds[i] && r[i].meetings == Filter(ms, ds[i])
      {
        if i != k {
          assert ds[i] != m.date;
          assert Filter(ms, ds[i]) == Filter(p, ds[i]) + [];
        }
      }
    } else {
      assert m.date !in ds;
      assert Dates(ms) == ds + [m.date];
      FilterEmpty(p, m.date);
      forall i | 0 <= i < |r|
        ensures r[i].date == Dates(ms)[i] && r[i].meetings == Filter(ms, Dates(ms)[i])
      {
        if i < |gs| {
          assert ds[i] != m.date;
          assert Filter(ms, ds[i]) == Filter(p, ds[i]) + [];
        } else {
          assert Filter(ms, m.date) == [] + [m];
        }
      }
    }
  }

  /** No group is empty and every meeting is in exactly the group of its date. */
  lemma GroupsPartitionMeetings(ms: seq<Meeting>, m: Meeting)
    ensures forall i | 0 <= i < |GroupByDate(ms)| :: |GroupByDate(ms)[i].meetings| > 0
    ensures m in ms ==> forall i | 0 <= i < |GroupByDate(ms)| ::
              (m in GroupByDate(ms)[i].meetings <==> GroupByDate(ms)[i].date == m.date)
    ensures m in ms ==> exists i | 0 <= i < |GroupByDate(ms)| :: GroupByDate(ms)[i].date == m.date
  {
    var gs := GroupByDate(ms);
    var ds := Dates(ms);
    forall i | 0 <= i < |gs|
      ensures |gs[i].meetings| > 0
    {
      var k := FirstIndex(ms, ds[i]);
      FilterMembership(ms, ds[i], ms[k]);
    }
    forall i | 0 <= i < |gs|
      ensures m in ms ==> (m in gs[i].meetings <==> gs[i].date == m.date)
    {
      FilterMembership(ms, ds[i], m);
    }
    if m in ms {
      var k :| 0 <= k < |ms| && ms[k] == m;
      assert HasDate(ms, m.date);
      var i :| 0 <= i < |ds| && ds[i] == m.date;
      assert gs[i].date == m.date;
    }
  }

  function TotalSize(gs: seq<Group>): nat
    decreases |gs|
  {
    if |gs| == 0 then 0 else TotalSize(gs[..|gs| - 1]) + |gs[|gs| - 1].meetings|
  }

  lemma {:induction false} TotalSizeUpdate(gs: seq<Group>, k: nat, g: Group)
    requires k < |gs|
    ensures TotalSize(gs[k := g]) == TotalSize(gs) - |gs[k].meetings| + |g.meetings|
    decreases |gs|
  {
    var n := |gs| - 1;
    if k < n {
      assert gs[k := g][..n] == gs[..n][k := g];
      TotalSizeUpdate(gs[..n], k, g);
    } else {
      assert gs[k := g][..n] == gs[..n];
    }
  }

  /** Grouping loses and duplicates nothing: the group sizes add up to the number of meetings. */
  lemma {:induction false} GroupingPreservesCount(ms: seq<Meeting>)
    ensures TotalSize(GroupByDate(ms)) == |ms|
    decreases |ms|
  {
    if |ms| > 0 {
      var p := ms[..|ms| - 1];
      var m := ms[|ms| - 1];
      var gs := GroupByDate(p);
      GroupingPreservesCount(p);
      var k := FindGroup(gs, m.date);
      if k >= 0 {
        TotalSizeUpdate(gs, k, gs[k].(meetings := gs[k].meetings + [m]));
      } else {
        assert (gs + [Group(m.date, [m])])[..|gs|] == gs;
      }
    }
  }

  /** The 12-hour reading of a `HH:MM` string. */
  datatype Clock12 = Clock12(hour12: int, minutes: string, pm: bool)

  /**
   * `formatTime`'s arithmetic: the hour is `parseInt` of the text before the
   * first ':' (NaN counts as not past noon and, being falsy modulo 12, shows
   * as 12); the minutes are the text between the first and second ':', or
   * "undefined" when there is no ':' at all.
   */
  function To12Hour(time: string): (c: Clock12)
    ensures var hour := ParseInt(Split(time, ':')[0]);
            && (c.pm <==> hour.Some? && hour.value >= 12)
            && c.hour12 != 0 && -12 < c.hour12 <= 12
            && (hour.None? ==> c.hour12 == 12)
    ensures c.minutes == if |Split(time, ':')| > 1 then Split(time, ':')[1] else "undefined"
  {
    var parts := Split(time, ':');
    var minutes := if |parts| > 1 then parts[1] else "undefined";
    match ParseInt(parts[0])
    case None => Clock12(12, minutes, false)
    case Some(hour) =>
      var r := JsRem(hour, 12);
      Clock12(if r == 0 then 12 else r, minutes, hour >= 12)
  }

  /** `formatTime`: `h:mm AM` or `h:mm PM`. */
  function FormatTime(time: string): (s: string)
    ensures |s| >= 5 && s[|s| - 3..] == (if To12Hour(time).pm then " PM" else " AM")
  {
    var c := To12Hour(time);
    IntToString(c.hour12) + ":" + c.minutes + (if c.pm then " PM" else " AM")
  }

  /** The hour on a 24-hour clock that a 12-hour reading denotes. */
  function To24(hour12: int, pm: bool): int {
    if pm then (if hour12 == 12 then 12 else hour12 + 12) else (if hour12 == 12 then 0 else hour12)
  }

  lemma SplitHourMinutes(hh: string, mm: string)
    requires ':' !in hh && ':' !in mm
    ensures Split(hh + ":" + mm, ':') == [hh, mm]
  {
    SplitJoin([hh, mm], ':');
    assert Join([hh, mm], ":") == hh + ":" + mm;
  }

  /**
   * For a well-formed time with hour 0..23, the 12-hour value is in 1..12,
   * the suffix is PM exactly from noon, the minutes pass through unchanged,
   * and the reading converts back to the original hour.
   */
  lemma FormatTimeClock(h: nat, mm: string)
    requires h < 24 && ':' !in mm
    ensures var c := To12Hour(Pad2(NatToString(h)) + ":" + mm);
            && 1 <= c.hour12 <= 12
            && c.pm == (h >= 12)
            && c.minutes == mm
            && To24(c.hour12, c.pm) == h
            && (h == 0 ==> c.hour12 == 12 && !c.pm)
            && (h == 12 ==> c.hour12 == 12 && c.pm)
  {
    var t := Pad2(NatToString(h)) + ":" + mm;
    HourMinuteFields(h, mm);
    ReadClock(t, h, mm);
    JsRemNonNegative(h, 12);
    ClockArithmetic(h, mm, To12Hour(t));
  }

  /**
   * The text `formatTime` shows for a zero-padded hour h and minutes mm:
   * `h % 12 || 12`, a colon, the minutes unchanged, then PM exactly from
   * noon on.
   */
  lemma FormatTimeReads(h: nat, mm: string)
    requires h < 24 && ':' !in mm
    ensures FormatTime(Pad2(NatToString(h)) + ":" + mm)
            == IntToString(if h % 12 == 0 then 12 else h % 12) + ":" + mm + (if h >= 12 then " PM" else " AM")
  {
    PaddedClock(h, mm);
  }

  /** The 12-hour reading of a zero-padded `HH:mm`. */
  lemma PaddedClock(h: nat, mm: string)
    requires h < 24 && ':' !in mm
    ensures To12Hour(Pad2(NatToString(h)) + ":" + mm) == Clock12(if h % 12 == 0 then 12 else h % 12, mm, h >= 12)
  {
    var t := Pad2(NatToString(h)) + ":" + mm;
    HourMinuteFields(h, mm);
    ReadClock(t, h, mm);
    JsRemNonNegative(h, 12);
  }

  lemma ClockArithmetic(h: nat, mm: string, c: Clock12)
    requires h < 24
    requires c == Clock12(if h % 12 == 0 then 12 else h % 12, mm, h >= 12)
    ensures 1 <= c.hour12 <= 12 && c.pm == (h >= 12) && c.minutes == mm && To24(c.hour12, c.pm) == h
    ensures (h == 0 ==> c.hour12 == 12 && !c.pm) && (h == 12 ==> c.hour12 == 12 && c.pm)
  {
    var r := if h < 12 then h else h - 12;
    assert h % 12 == r;
  }

  /** `To12Hour` once the hour field is known to parse to `h`. */
  lemma ReadClock(time: string, h: int, mm: string)
    requires |Split(time, ':')| == 2 && ParseInt(Split(time, ':')[0]) == Some(h) && Split(time, ':')[1] == mm
    ensures var r := JsRem(h, 12); To12Hour(time) == Clock12(if r == 0 then 12 else r, mm, h >= 12)
  {
  }

  /** The fields `formatTime` reads from a zero-padded `HH:mm`: the hour parses back and the minutes are the second field. */
  lemma HourMinuteFields(h: nat, mm: string)
    requires h < 24 && ':' !in mm
    ensures var parts := Split(Pad2(NatToString(h)) + ":" + mm, ':');
            |parts| == 2 && ParseInt(parts[0]) == Some(h) && parts[1] == mm
  {
    var hh := Pad2(NatToString(h));
    PaddedHasNoColon(h);
    SplitHourMinutes(hh, mm);
    ParseIntPad2(h);
  }

  lemma PaddedHasNoColon(n: nat)
    requires n < 100
    ensures ':' !in Pad2(NatToString(n))
  {
    var ds := NatToString(n);
    assert AllDigits(ds);
    if |ds| < 2 {
      assert Pad2(ds) == "0" + ds;
      assert forall i | 0 <= i < |Pad2(ds)| :: IsDigit(Pad2(ds)[i]);
    } else {
      assert forall i | 0 <= i < |Pad2(ds)| :: IsDigit(Pad2(ds)[i]);
    }
  }

  lemma JsRemNonNegative(a: nat, b: nat)
    requires b > 0
    ensures JsRem(a, b) == a % b
  {
  }

  /** An hour field with no digits reads as 12 AM. */
  lemma FormatTimeNotANumber(time: string)
    requires ParseInt(Split(time, ':')[0]).None?
    ensures To12Hour(time).hour12 == 12 && !To12Hour(time).pm
  {
  }

  /** The end time `HH:MM`: the start plus the duration in minutes, modulo one day, each part zero-padded to two digits. */
  function CalculateEndTime(hours: int, minutes: int, duration: int): (s: string)
    ensures |s| == 5 && s[2] == ':'
  {
    var total := (hours * 60 + minutes + duration) % 1440;
    var hh := Pad2(NatToString(total / 60));
    var mm := Pad2(NatToString(total % 60));
    assert |NatToString(total / 60)| <= 2 by { SmallNatDigits(total / 60); }
    assert |NatToString(total % 60)| <= 2 by { SmallNatDigits(total % 60); }
    hh + ":" + mm
  }

  lemma SmallNatDigits(n: nat)
    requires n < 100
    ensures |NatToString(n)| <= 2
  {
  }

  /**
   * Reading the end time back gives the minute of the day that the start
   * plus the duration falls on: its hours and minutes parse to a valid clock
   * time equal to `(hours * 60 + minutes + duration) mod 1440`.
   */
  lemma EndTimeReadsBack(hours: int, minutes: int, duration: int)
    ensures var s := CalculateEndTime(hours, minutes, duration);
            var e := EndMinuteOfDay(hours, minutes, duration);
            && 0 <= e < 1440
            && ParseInt(s[..2]) == Some(e / 60) && ParseInt(s[3..]) == Some(e % 60)
            && AllDigits(s[..2]) && AllDigits(s[3..])
            && e / 60 < 24 && e % 60 < 60
  {
    var total := (hours * 60 + minutes + duration) % 1440;
    var eh: nat := total / 60;
    var em: nat := total % 60;
    var s := CalculateEndTime(hours, minutes, duration);
    SmallNatDigits(eh);
    SmallNatDigits(em);
    var hh := Pad2(NatToString(eh));
    var mm := Pad2(NatToString(em));
    assert s == hh + ":" + mm;
    assert s[..2] == hh;
    assert s[3..] == mm;
    ParseIntPad2(eh);
    ParseIntPad2(em);
    Pad2Digits(eh);
    Pad2Digits(em);
  }

  /** A number below 100, zero-padded, is two decimal digits. */
  lemma Pad2Digits(n: nat)
    requires n < 100
    ensures |Pad2(NatToString(n))| == 2 && AllDigits(Pad2(NatToString(n)))
  {
    var ds := NatToString(n);
    SmallNatDigits(n);
    if |ds| < 2 {
      assert Pad2(ds) == "0" + ds;
    }
  }

  /** The minute of the day on which a meeting ends. */
  function EndMinuteOfDay(hours: int, minutes: int, duration: int): int {
    (hours * 60 + minutes + duration) % 1440
  }

  /** Adding whole days to a meeting's duration does not change its end time. */
  lemma EndTimeIgnoresWholeDays(hours: int, minutes: int, duration: int, days: int)
    ensures CalculateEndTime(hours, minutes, duration + 1440 * days) == CalculateEndTime(hours, minutes, duration)
  {
    var a := hours * 60 + minutes + duration;
    assert (a + 1440 * days) % 1440 == a % 1440;
    assert hours * 60 + minutes + (duration + 1440 * days) == a + 1440 * days;
  }

  /** The participant avatars shown: the first three, and a "+k" badge for the rest when there are more than three. */
  datatype Avatars = Avatars(shown: seq<string>, badge: Option<nat>)

  function ParticipantAvatars(participants: seq<string>): (a: Avatars)
    ensures |a.shown| <= 3 && |a.shown| <= |participants| && a.shown == participants[..|a.shown|]
    ensures a.badge.Some? <==> |participants| > 3
    ensures a.badge.Some? ==> a.badge.value == |participants| - 3
    ensures |a.shown| + (if a.badge.Some? then a.badge.value else 0) == |participants|
  {
    if |participants| > 3 then Avatars(participants[..3], Some(|participants| - 3))
    else Avatars(participants, None)
  }
}
