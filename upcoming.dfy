/** The /upcoming command: the TruckersMP events created by the caller's VTC,
    ordered by meetup time, at most ten of them, one card each. */
module Upcoming {
  import opened Wrappers
  import opened Text
  import opened Sorting
  import opened Clock
  import opened Events
  import opened Seqs

  datatype Reply =
    | NoVtc                   // "You don't have a VTC registered."
    | HttpError(status: int)  // "TruckersMP API returned HTTP <status>."
    | FailedToFetch           // "Failed to fetch events"
    | Crashed                 // the handler raised: a null or non-object creator or response
    | NoEvents                // "No upcoming events found for your VTC."
    | Cards(cards: seq<Card>)

  /** creator.get("name") raises on a null creator and on one that is not an object. */
  predicate Crashes(e: Event) {
    e.creator.NullCreator? || e.creator.OtherCreator?
  }

  /** The creator's name is non-empty and equals the VTC name ignoring case. */
  predicate ByVtc(e: Event, vtc: string) {
    && e.creator.CreatorObject? && e.creator.name.Present?
    && e.creator.name.value != "" && Lower(e.creator.name.value) == Lower(vtc)
  }

  /** The events of the VTC, in the API's order. */
  function Matching(events: seq<Event>, vtc: string): (r: seq<Event>)
    ensures |r| <= |events|
    ensures forall e :: e in r <==> e in events && ByVtc(e, vtc)
  {
    Filter(events, e => ByVtc(e, vtc))
  }

  /** Only the VTC name's letters matter, not their case. */
  lemma MatchingIgnoresCase(events: seq<Event>, vtc: string)
    ensures Matching(events, Lower(vtc)) == Matching(events, vtc)
  {
    LowerIdempotent(vtc);
    FilterSame(events, e => ByVtc(e, Lower(vtc)), e => ByVtc(e, vtc));
  }

  /** The filter loop: a crash at the first null or non-object creator,
      otherwise the VTC's events in order. */
  method FilterByVtc(events: seq<Event>, vtc: string) returns (r: Option<seq<Event>>)
    ensures r.None? <==> exists i :: 0 <= i < |events| && Crashes(events[i])
    ensures r.Some? ==> r.value == Matching(events, vtc)
  {
    var filtered: seq<Event> := [];
    var i := 0;
    while i < |events|
      invariant 0 <= i <= |events|
      invariant forall j :: 0 <= j < i ==> !Crashes(events[j])
      invariant filtered == Matching(events[..i], vtc)
    {
      var e := events[i];
      if Crashes(e) {
        return None;
      }
      assert events[..i + 1][..i] == events[..i];
      if ByVtc(e, vtc) {
        filtered := filtered + [e];
      }
      i := i + 1;
    }
    assert events[..i] == events;
    return Some(filtered);
  }

  /** e.get("meetupDateTime") or "" */
  function MeetupKey(e: Event): string {
    if e.meetup.Present? then e.meetup.value else ""
  }

  /** The empty string sorts before every other key. */
  lemma EmptyKeyFirst(k: string)
    ensures !Less(k, "")
    ensures k != "" ==> Less("", k)
  {
  }

  /** After the sort, an event without a meetup time comes after nothing but other
      events without one. */
  lemma MissingTimesFirst(kept: seq<Event>, s: seq<Event>, j: int)
    requires s == StableSort(kept, MeetupKey)
    requires 0 <= j < |s| && MeetupKey(s[j]) == ""
    ensures forall i :: 0 <= i < j ==> MeetupKey(s[i]) == ""
  {
    StableSortCorrect(kept, MeetupKey);
    forall i | 0 <= i < j ensures MeetupKey(s[i]) == "" {
      EmptyKeyFirst(MeetupKey(s[i]));
    }
  }

  /** The card of one event; its footer names the caller's VTC. */
  function CardOf(e: Event, vtc: string, fromIso: string -> Option<DateTime>): (r: Card)
    ensures r.title == e.name && r.footer == "Creator: " + vtc
  {
    Card(e.name, TimeText(e.meetup, fromIso), EventLink(e.id), "Creator: " + vtc)
  }

  /** The loop over filtered[:10]: one card per event, at most ten, in order. */
  method ShowCards(sorted: seq<Event>, vtc: string, fromIso: string -> Option<DateTime>) returns (cards: seq<Card>)
    ensures |cards| == (if |sorted| < 10 then |sorted| else 10)
    ensures forall i :: 0 <= i < |cards| ==> cards[i] == CardOf(sorted[i], vtc, fromIso)
  {
    var shown := if |sorted| < 10 then sorted else sorted[..10];
    cards := MapEach(shown, e => CardOf(e, vtc, fromIso));
  }

  /** data.get("response", []): the events listed, none when the key is absent. */
  function Listed(response: Field<seq<Event>>): seq<Event> {
    if response.Present? then response.value else []
  }

  /** The loop stops at an event whose creator has no .get. */
  predicate AnyCrashes(events: seq<Event>) {
    exists i :: 0 <= i < |events| && Crashes(events[i])
  }

  /** The whole command. A caller without a VTC is turned away before any request;
      then the fetch, the filter, the empty check, the sort and the cards. Each
      reply says exactly which case the command was in. */
  method ListUpcoming(vtcName: Option<string>, fetch: Fetch, fromIso: string -> Option<DateTime>) returns (reply: Reply)
    ensures reply == NoVtc <==> vtcName.None? || vtcName.value == ""
    ensures reply.HttpError? <==> reply != NoVtc && fetch.HttpStatus?
    ensures reply.HttpError? ==> reply.status == fetch.status
    ensures reply == FailedToFetch <==> reply != NoVtc && fetch.FetchFailed?
    ensures reply == Crashed <==>
      && reply != NoVtc && fetch.Fetched?
      && (fetch.response.Null? || AnyCrashes(Listed(fetch.response)))
    ensures reply == NoEvents <==>
      && reply != NoVtc && fetch.Fetched? && !fetch.response.Null?
      && !AnyCrashes(Listed(fetch.response))
      && Matching(Listed(fetch.response), vtcName.value) == []
    ensures reply.Cards? ==>
      && fetch.Fetched? && !fetch.response.Null? && !AnyCrashes(Listed(fetch.response))
      && var sorted := StableSort(Matching(Listed(fetch.response), vtcName.value), MeetupKey);
         && sorted != []
         && |reply.cards| == (if |sorted| < 10 then |sorted| else 10)
         && forall i :: 0 <= i < |reply.cards| ==> reply.cards[i] == CardOf(sorted[i], vtcName.value, fromIso)
  {
    if vtcName.None? || vtcName.value == "" {
      return NoVtc;
    }
    var vtc := vtcName.value;
    match fetch
    case HttpStatus(status) =>
      return HttpError(status);
    case FetchFailed =>
      return FailedToFetch;
    case Fetched(response) =>
      if response.Null? {
        return Crashed;
      }
      var events := Listed(response);
      var filtered := FilterByVtc(events, vtc);
      if filtered.None? {
        return Crashed;
      }
      var kept := filtered.value;
      if kept == [] {
        return NoEvents;
      }
      var sorted := StableSort(kept, MeetupKey);
      StableSortCorrect(kept, MeetupKey);
      var cards := ShowCards(sorted, vtc, fromIso);
      return Cards(cards);
  }
}
