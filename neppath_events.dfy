/** The /events command: NepPath's TruckersMP events whose meetup falls on a
    given day, in the API's order, one card each. */
module NepPathEvents {
  import opened Wrappers
  import opened Text
  import opened Clock
  import opened Events
  import opened Seqs

  const VtcName := "NepPath"

  datatype Reply =
    | InvalidDate              // "Invalid date format. Use dd/mm/yy."
    | HttpError(status: int)   // "TruckersMP API returned HTTP <status>."
    | Unexpected               // "An unexpected error occurred."
    | NoEvents(date: string)   // "No events found for NepPath on <date>."
    | Cards(cards: seq<Card>)

  /** creator_name: `evt.get("creator") or {}`, and its "name" when that is an object. */
  function CreatorName(e: Event): Field<string> {
    if e.creator.CreatorObject? then e.creator.name else Missing
  }

  /** The creator's name is non-empty and equals "NepPath" ignoring case. */
  predicate ByNepPath(e: Event) {
    CreatorName(e).Present? && CreatorName(e).value != "" && Lower(CreatorName(e).value) == Lower(VtcName)
  }

  /** The meetup time is present, parses once trailing "Z"s are stripped, and falls
      on the given day (read as UTC). */
  predicate OnDay(e: Event, day: Date, fromIso: string -> Option<DateTime>) {
    && e.meetup.Present? && e.meetup.value != ""
    && fromIso(RStrip(e.meetup.value, IsZ)).Some?
    && fromIso(RStrip(e.meetup.value, IsZ)).value.date == day
  }

  predicate Wanted(e: Event, day: Date, fromIso: string -> Option<DateTime>) {
    ByNepPath(e) && OnDay(e, day, fromIso)
  }

  /** The events kept, in the API's order. */
  function Scheduled(events: seq<Event>, day: Date, fromIso: string -> Option<DateTime>): (r: seq<Event>)
    ensures |r| <= |events|
    ensures forall e :: e in r <==> e in events && Wanted(e, day, fromIso)
  {
    Filter(events, e => Wanted(e, day, fromIso))
  }

  /** The filter loop, with its early `continue`s: events of other creators,
      without a meetup time, with one that does not parse or that falls on another
      day are passed over. */
  method FilterScheduled(events: seq<Event>, day: Date, fromIso: string -> Option<DateTime>) returns (matched: seq<Event>)
    ensures matched == Scheduled(events, day, fromIso)
  {
    matched := [];
    var i := 0;
    while i < |events|
      invariant 0 <= i <= |events|
      invariant matched == Scheduled(events[..i], day, fromIso)
    {
      var e := events[i];
      assert events[..i + 1][..i] == events[..i];
      i := i + 1;
      var name := CreatorName(e);
      if !(name.Present? && name.value != "" && Lower(name.value) == Lower(VtcName)) {
        continue;
      }
      if !(e.meetup.Present? && e.meetup.value != "") {
        continue;
      }
      var parsed := fromIso(RStrip(e.meetup.value, IsZ));
      if parsed.None? {
        continue;
      }
      if parsed.value.date == day {
        matched := matched + [e];
      }
    }
    assert events[..i] == events;
  }

  /** evt.get("name") or "Unnamed Event" */
  function EventName(name: Field<string>): (r: string)
    ensures r != ""
    ensures name.Present? && name.value != "" ==> r == name.value
    ensures !(name.Present? && name.value != "") ==> r == "Unnamed Event"
  {
    if name.Present? && name.value != "" then name.value else "Unnamed Event"
  }

  /** The time text of a card: "Unknown time" unless the meetup time is present. */
  function CardTime(meetup: Field<string>, fromIso: string -> Option<DateTime>): string {
    if meetup.Present? && meetup.value != "" then TimeText(meetup, fromIso) else "Unknown time"
  }

  /** The card of one event: its name, or "Unnamed Event", then " | NepPath". */
  function CardOf(e: Event, fromIso: string -> Option<DateTime>): (r: Card)
    ensures r.title == Present(EventName(e.name) + " | " + VtcName) && r.footer == "VTC: " + VtcName
    ensures r.link == EventLink(e.id)
  {
    var name := EventName(e.name);
    Card(Present(name + " | " + VtcName), CardTime(e.meetup, fromIso), EventLink(e.id), "VTC: " + VtcName)
  }

  /** A listed event always shows its time, unless the shift to Nepal Time runs past
      the last day Python can represent. */
  lemma ListedTimeKnown(e: Event, events: seq<Event>, day: Date, fromIso: string -> Option<DateTime>)
    requires e in Scheduled(events, day, fromIso) && day != LastDate
    ensures MeetupTimes(e.meetup, fromIso).Some?
    ensures CardTime(e.meetup, fromIso) != "Unknown time"
  {
    var t := fromIso(RStrip(e.meetup.value, IsZ)).value;
    assert t.date == day;
    TimeTextShows(e.meetup, fromIso);
  }

  /** The second loop: one card per matched event, in order. */
  method ShowEvents(matched: seq<Event>, fromIso: string -> Option<DateTime>) returns (cards: seq<Card>)
    ensures |cards| == |matched|
    ensures forall i :: 0 <= i < |cards| ==> cards[i] == CardOf(matched[i], fromIso)
  {
    cards := MapEach(matched, e => CardOf(e, fromIso));
  }

  /** The whole command. A date that strptime("%d/%m/%y") (the oracle strptime)
      rejects is turned away before any request. */
  method ListEvents(date: string, strptime: string -> Option<Date>, fetch: Fetch, fromIso: string -> Option<DateTime>)
    returns (reply: Reply)
    ensures strptime(date).None? <==> reply == InvalidDate
    ensures strptime(date).Some? && fetch.HttpStatus? ==> reply == HttpError(fetch.status)
    ensures strptime(date).Some? && fetch.FetchFailed? ==> reply == Unexpected
    ensures reply.NoEvents? ==> reply.date == date
    ensures strptime(date).Some? && fetch.Fetched? ==>
      if fetch.response.Null? then reply == Unexpected
      else
        var events := if fetch.response.Present? then fetch.response.value else [];
        var matched := Scheduled(events, strptime(date).value, fromIso);
        && (matched == [] ==> reply == NoEvents(date))
        && (matched != [] ==>
              && reply.Cards? && |reply.cards| == |matched|
              && forall i :: 0 <= i < |matched| ==> reply.cards[i] == CardOf(matched[i], fromIso))
  {
    var day := strptime(date);
    if day.None? {
      return InvalidDate;
    }
    match fetch
    case HttpStatus(status) =>
      return HttpError(status);
    case FetchFailed =>
      return Unexpected;
    case Fetched(response) =>
      if response.Null? {
        return Unexpected;
      }
      var events := if response.Present? then response.value else [];
      var matched := FilterScheduled(events, day.value, fromIso);
      if matched == [] {
        return NoEvents(date);
      }
      var cards := ShowEvents(matched, fromIso);
      return Cards(cards);
  }
}
