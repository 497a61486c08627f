/** The pure parts of the convoy announcement and its time fields: the event id
    taken from a TruckersMP link, the manual start and finish overrides, and the
    "HH:MM UTC | HH:MM NPT" time text. */
module Announcement {
  import opened Wrappers
  import opened Text
  import opened Clock
  import opened DigitSearch

  // ---------------------------------------------------------------- format_time

  /** The time format_time shows and its Nepal Time counterpart; None where it
      shows "Unknown": a missing or empty time, text that datetime.fromisoformat
      (the oracle fromIso) rejects once "Z" is written as "+00:00", or a time
      whose shift by 5:45 overflows. */
  function Shifted(iso: Option<string>, fromIso: string -> Option<DateTime>): (r: Option<(DateTime, DateTime)>)
    ensures r.Some? <==>
      && iso.Some? && iso.value != ""
      && fromIso(Replace(iso.value, 'Z', "+00:00")).Some?
      && ShiftToNpt(fromIso(Replace(iso.value, 'Z', "+00:00")).value).Some?
    ensures r.Some? ==> Some(r.value.0) == fromIso(Replace(iso.value, 'Z', "+00:00"))
    ensures r.Some? ==> r.value.1.TimeOfDay() == (r.value.0.TimeOfDay() + NptOffset) % MinutesPerDay
  {
    if iso.None? || iso.value == "" then None
    else
      match fromIso(Replace(iso.value, 'Z', "+00:00"))
      case None => None
      case Some(t) =>
        match ShiftToNpt(t)
        case None => None
        case Some(n) => Some((t, n))
  }

  /** format_time: "Unknown", or the clock time followed by the Nepal Time clock
      time, which is 5:45 later, wrapping at midnight. */
  function FormatTime(iso: Option<string>, fromIso: string -> Option<DateTime>): (r: string)
    ensures Shifted(iso, fromIso).None? ==> r == "Unknown"
    ensures Shifted(iso, fromIso).Some? ==> ShowsBothClocks(r, Shifted(iso, fromIso).value.0.TimeOfDay())
  {
    match Shifted(iso, fromIso)
    case None => "Unknown"
    case Some((t, n)) => UtcAndNpt(t, n)
  }

  /** "HH:MM UTC | HH:MM NPT" where the first clock reads `minutes` after midnight
      and the second reads 5:45 later, wrapping at midnight. */
  predicate ShowsBothClocks(r: string, minutes: int) {
    && |r| == 21 && r[5..12] == " UTC | " && r[17..] == " NPT"
    && IsClock(r[..5]) && IsClock(r[12..17])
    && ClockReading(r[..5]) == minutes
    && ClockReading(r[12..17]) == (minutes + NptOffset) % MinutesPerDay
  }

  /** "%H:%M UTC | %H:%M NPT" for a time and its Nepal Time counterpart. */
  function UtcAndNpt(t: DateTime, n: DateTime): (r: string)
    requires n.TimeOfDay() == (t.TimeOfDay() + NptOffset) % MinutesPerDay
    ensures ShowsBothClocks(r, t.TimeOfDay())
  {
    HmReading(t);
    HmReading(n);
    TwoClocks(FormatHm(t), FormatHm(n))
  }

  function TwoClocks(utc: string, npt: string): (r: string)
    requires |utc| == 5 && |npt| == 5
    ensures |r| == 21 && r[..5] == utc && r[5..12] == " UTC | " && r[12..17] == npt && r[17..] == " NPT"
  {
    var r := utc + " UTC | " + npt + " NPT";
    Concat4(utc, " UTC | ", npt, " NPT", r);
    r
  }

  // ---------------------------------------------------------------- manual override

  /** A manual start or finish city: the stripped text with the tag " (manual)", or
      the API's city and no tag when the text is blank. */
  function Override(manual: string, fromApi: string): (r: (string, string))
    ensures r.1 == "" <==> Blank(manual)
    ensures r.1 == "" ==> r.0 == fromApi
    ensures r.1 != "" ==> r.1 == " (manual)" && r.0 == Strip(manual)
    ensures r.1 != "" ==> r.0 != [] && Trimmed(r.0)
  {
    var city := Strip(manual);
    if city != [] then (city, " (manual)") else (fromApi, "")
  }

  /** Surrounding whitespace in the manual text makes no difference. */
  lemma OverrideIgnoresPadding(manual: string, fromApi: string)
    ensures Override(Strip(manual), fromApi) == Override(manual, fromApi)
  {
    StripIdempotent(manual);
  }

  // ---------------------------------------------------------------- event id

  /** re.search(r"/events/(\d+)", link.strip()).group(1); None is the
      "Invalid event link!" reply. */
  function EventId(link: string): (r: Option<string>)
    ensures r.Some? ==> IsDigits(r.value)
    ensures r.None? <==> forall j: nat :: !MatchAt(Strip(link), "/events/", j)
  {
    SearchDigits(Strip(link), "/events/")
  }

  /** The digits after "/events/" are the id, whatever follows them, when the
      host part has no earlier "/e" to start a match. */
  lemma EventIdOfLink(host: string, d: string, rest: string)
    requires IsDigits(d)
    requires rest == [] || !IsDigit(rest[0])
    requires NoSpace(host) && NoSpace(rest)
    requires NoSlashBefore(host, 'e')
    ensures EventId(host + "/events/" + d + rest) == Some(d)
  {
    var s := host + "/events/" + d + rest;
    LinkStripped(host, d, rest, s);
    SearchEvents(host, d, rest, s);
  }

  lemma SearchEvents(host: string, d: string, rest: string, s: string)
    requires IsDigits(d) && (rest == [] || !IsDigit(rest[0]))
    requires NoSlashBefore(host, 'e')
    requires s == host + "/events/" + d + rest
    ensures SearchDigits(s, "/events/") == Some(d)
  {
    var p := "/events/";
    assert |p| >= 2 && p[0] == '/' && p[1] == 'e';
    SearchAfterHost(host, p, d, rest, s);
  }

  lemma LinkStripped(host: string, d: string, rest: string, s: string)
    requires IsDigits(d) && NoSpace(host) && NoSpace(rest)
    requires s == host + "/events/" + d + rest
    ensures Strip(s) == s
  {
    LinkNoSpace(host, d, rest);
    StripNoSpace(s);
  }

  lemma LinkNoSpace(host: string, d: string, rest: string)
    requires IsDigits(d) && NoSpace(host) && NoSpace(rest)
    ensures NoSpace(host + "/events/" + d + rest)
  {
    var p := "/events/";
    DigitsNoSpace(d);
    NoSpaceAppend(host, p);
    NoSpaceAppend(host + p, d);
    NoSpaceAppend(host + p + d, rest);
  }

  predicate NoSpace(s: string) {
    forall i :: 0 <= i < |s| ==> !IsSpace(s[i])
  }

  lemma NoSpaceAppend(a: string, b: string)
    requires NoSpace(a) && NoSpace(b)
    ensures NoSpace(a + b)
  {
    forall i | 0 <= i < |a + b| ensures !IsSpace((a + b)[i]) {
      if i >= |a| {
        assert (a + b)[i] == b[i - |a|];
      }
    }
  }

  lemma DigitsNoSpace(d: string)
    requires IsDigits(d)
    ensures NoSpace(d)
  {
  }

  /** An event page on the TruckersMP site yields its id, whatever follows it. */
  lemma SiteLinkId(d: string, rest: string)
    requires IsDigits(d) && (rest == [] || !IsDigit(rest[0])) && NoSpace(rest)
    ensures EventId(Site + "/events/" + d + rest) == Some(d)
  {
    SiteShape();
    EventIdOfLink(Site, d, rest);
  }

  lemma SiteShape()
    ensures NoSpace(Site) && NoSlashBefore(Site, 'e')
  {
    SiteSlashes('e');
  }

  /** The link shape the announcement form suggests. */
  lemma EventIdExample()
    ensures EventId("https://truckersmp.com/events/12345") == Some("12345")
  {
    assert Site + "/events/" + "12345" + "" == "https://truckersmp.com/events/12345";
    SiteLinkId("12345", "");
  }
}
