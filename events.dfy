/** The TruckersMP events as the API lists them, and what the /upcoming and
    /events commands print for one: the event link and the meetup time text. */
module Events {
  import opened Wrappers
  import opened Text
  import opened Clock
  import Announcement
  import DigitSearch

  /** The "creator" entry of an event as the API sends it. */
  datatype Creator =
    | NoCreator                          // key absent: .get gives {}
    | NullCreator                        // JSON null
    | CreatorObject(name: Field<string>) // an object, with or without "name"
    | OtherCreator                       // any other JSON value

  datatype Event = Event(id: Field<int>, name: Field<string>, creator: Creator, meetup: Field<string>)

  /** What the events request gave. */
  datatype Fetch =
    | HttpStatus(status: int)            // a status other than 200
    | FetchFailed                        // the request raised
    | Fetched(response: Field<seq<Event>>)

  /** An event card. Its description is "**Start:** <time>" and an "Event Link"
      to the event's page, on two lines. */
  datatype Card = Card(title: Field<string>, time: string, link: string, footer: string) {
    function Description(): string {
      "**Start:** " + time + "\n[Event Link](" + link + ")"
    }
  }

  predicate IsZ(c: char) {
    c == 'Z'
  }

  /** The event link: str() of the id, "None" when there is none. */
  function EventLink(id: Field<int>): string {
    DigitSearch.Site + "/events/" + (if id.Present? then IntToString(id.value) else "None")
  }

  /** The link of a card leads back to its event: the announcement form reads the
      same id out of it. */
  lemma EventLinkRoundTrip(n: nat)
    ensures Announcement.EventId(EventLink(Present(n))) == Some(NatToString(n))
  {
    assert EventLink(Present(n)) == DigitSearch.Site + "/events/" + NatToString(n) + "";
    Announcement.SiteLinkId(NatToString(n), "");
  }

  /** The meetup time as the card reads it and its Nepal Time counterpart; None
      where the card shows "Unknown time": no meetup time, text that
      datetime.fromisoformat (the oracle fromIso) rejects once trailing "Z"s are
      stripped, or a time whose shift by 5:45 overflows. */
  function MeetupTimes(meetup: Field<string>, fromIso: string -> Option<DateTime>): (r: Option<(DateTime, DateTime)>)
    ensures r.Some? <==>
      && meetup.Present?
      && fromIso(RStrip(meetup.value, IsZ)).Some?
      && ShiftToNpt(fromIso(RStrip(meetup.value, IsZ)).value).Some?
    ensures r.Some? ==> Some(r.value.0) == fromIso(RStrip(meetup.value, IsZ))
    ensures r.Some? ==> MinuteNumber(r.value.1) == MinuteNumber(r.value.0) + NptOffset
  {
    if !meetup.Present? then None
    else
      match fromIso(RStrip(meetup.value, IsZ))
      case None => None
      case Some(t) =>
        match ShiftToNpt(t)
        case None => None
        case Some(n) => Some((t, n))
  }

  /** "%Y-%m-%d %H:%M UTC | %Y-%m-%d %H:%M NPT", or "Unknown time". */
  function TimeText(meetup: Field<string>, fromIso: string -> Option<DateTime>): (r: string)
    ensures r == "Unknown time" <==> MeetupTimes(meetup, fromIso).None?
  {
    match MeetupTimes(meetup, fromIso)
    case None => "Unknown time"
    case Some((t, n)) => FormatYmdHm(t) + " UTC | " + FormatYmdHm(n) + " NPT"
  }

  /** r reads as "<t> UTC | <n> NPT", each shown with its date. */
  predicate ShowsBothDates(r: string, t: DateTime, n: DateTime) {
    exists i :: (0 <= i <= |r| - 11
      && ShowsDateTime(r[..i], t) && r[i..i + 7] == " UTC | "
      && ShowsDateTime(r[i + 7..|r| - 4], n) && r[|r| - 4..] == " NPT")
  }

  /** A known meetup time is shown twice, as UTC and as Nepal Time, each with its
      date, and the two are 5:45 apart. */
  lemma TimeTextShows(meetup: Field<string>, fromIso: string -> Option<DateTime>)
    ensures MeetupTimes(meetup, fromIso).Some? ==>
      var (t, n) := MeetupTimes(meetup, fromIso).value;
      && MinuteNumber(n) == MinuteNumber(t) + NptOffset
      && ShowsBothDates(TimeText(meetup, fromIso), t, n)
  {
    if MeetupTimes(meetup, fromIso).Some? {
      var (t, n) := MeetupTimes(meetup, fromIso).value;
      YmdHmReading(t);
      YmdHmReading(n);
      BothDates(FormatYmdHm(t), FormatYmdHm(n), t, n);
    }
  }

  lemma BothDates(u: string, v: string, t: DateTime, n: DateTime)
    requires ShowsDateTime(u, t) && ShowsDateTime(v, n)
    ensures ShowsBothDates(u + " UTC | " + v + " NPT", t, n)
  {
    var r := u + " UTC | " + v + " NPT";
    Concat4(u, " UTC | ", v, " NPT", r);
    assert r[..|u|] == u && r[|u| + 7..|r| - 4] == v;
  }
}
