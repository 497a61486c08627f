/** The /vtc_info command: anyone gives a TruckersMP VTC link or id, and the bot
    answers, to them alone, with the VTC's description, rules, recruitment state,
    founding date, size and logo. */
module VtcLookup {
  import opened Wrappers
  import opened Text
  import opened DigitSearch
  import opened VtcApi
  import VtcInfo

  datatype Reply =
    | Invalid                 // "Invalid VTC link or ID."
    | HttpError(status: int)  // "API returned HTTP <status>."
    | FetchError              // "Failed to fetch data: ..."
    | NotFound                // "VTC not found."
    | Crashed                 // an exception escapes the handler
    | Info(embed: Embed)

  /** The id in the argument: the digits after the first "/vtc/" that a digit
      follows, or else the whole argument when it is a plain number. */
  function VtcId(link: string): (r: Option<string>)
    ensures r.Some? ==> IsDigits(r.value)
    ensures r.None? <==> SearchDigits(link, "/vtc/").None? && !IsDigits(link)
    ensures SearchDigits(link, "/vtc/").Some? ==> r == SearchDigits(link, "/vtc/")
  {
    match SearchDigits(link, "/vtc/")
    case Some(id) => Some(id)
    case None => if IsDigits(link) then Some(link) else None
  }

  /** A plain number is its own id: "/vtc/" cannot match inside digits. */
  lemma NumberIsId(link: string)
    requires IsDigits(link)
    ensures VtcId(link) == Some(link)
  {
    assert '/' in "/vtc/" && !IsDigit('/');
    NoMatchInDigits(link, "/vtc/");
  }

  /** A VTC page address, with anything after the id that does not start with a
      digit, yields the id. */
  lemma ProfileLinkId(id: string, rest: string)
    requires IsDigits(id) && (rest == [] || !IsDigit(rest[0]))
    ensures VtcId(ProfileUrl(id) + rest) == Some(id)
  {
    var p := "/vtc/";
    assert |p| >= 2 && p[0] == '/' && p[1] == 'v';
    SiteSlashes('v');
    assert ProfileUrl(id) + rest == Site + p + id + rest;
    SearchAfterHost(Site, p, id, rest, ProfileUrl(id) + rest);
  }

  /** The page address alone, with nothing after the id. */
  lemma ProfileUrlId(id: string)
    requires IsDigits(id)
    ensures VtcId(ProfileUrl(id)) == Some(id)
  {
    ProfileLinkId(id, []);
    assert ProfileUrl(id) + [] == ProfileUrl(id);
  }

  /** The page /vtcinfo links to leads /vtc_info back to the same VTC, and
      /vtcinfo itself reads the same id from it. */
  lemma ProfileUrlRoundTrip(id: string)
    requires IsDigits(id)
    ensures VtcId(ProfileUrl(id)) == Some(id)
    ensures VtcInfo.IdOf(ProfileUrl(id)) == Some(id)
  {
    ProfileUrlId(id);
    VtcInfo.IdOfProfileUrl(id);
  }

  /** The members field: str(n) below a thousand, and from a thousand on
      f"{n/1000:.1f}K", whose float rounding `thousands` supplies. */
  function MembersDisplay(n: int, thousands: int -> string): (r: string)
    ensures n < 1000 ==> PyInt(r, 10) == Some(n)
    ensures n >= 1000 ==> r == thousands(n)
  {
    PyIntOfIntToString(n);
    if n >= 1000 then thousands(n) else IntToString(n)
  }

  /** The embed for a VTC found under id, with its member count already read. */
  function InfoEmbed(id: string, v: Vtc, members: int, thousands: int -> string): (e: Embed)
    ensures e.colour == FromRgb(255, 90, 32) && e.url.None? && e.footer.None?
    ensures e.title == Shown(v.name, "None") + " (ID: " + id + ")"
    ensures e.description.None? <==> v.description.Null?
    ensures |e.fields| == 4 && e.fields[3].value == MembersDisplay(members, thousands)
    ensures e.fields[0].value == Shown(v.rules, "No rules listed")
    ensures e.fields[1].value == Shown(v.recruitmentState, "Unknown")
    ensures e.fields[2].value == Shown(v.foundingDate, "Unknown")
    ensures v.description.Missing? ==> e.description == Some("No description")
    ensures v.description.Present? ==> e.description == Some(v.description.value)
    ensures e.thumbnail.Some? <==> v.logo.Present? && v.logo.value != ""
    ensures e.thumbnail.Some? ==> e.thumbnail == Some(v.logo.value)
  {
    Embed(
      Shown(v.name, "None") + " (ID: " + id + ")",
      None,
      match v.description
        case Missing => Some("No description")
        case Null => None
        case Present(s) => Some(s),
      FromRgb(255, 90, 32),
      [ EmbedField("Rules", Shown(v.rules, "No rules listed"), false),
        EmbedField("Recruitment State", Shown(v.recruitmentState, "Unknown"), true),
        EmbedField("Created On", Shown(v.foundingDate, "Unknown"), true),
        EmbedField("Members", MembersDisplay(members, thousands), true) ],
      if v.logo.Present? && v.logo.value != "" then Some(v.logo.value) else None,
      None)
  }

  /** The reply to /vtc_info link. `fetch` answers the request for each address. */
  function Respond(link: string, fetch: string -> Fetch, thousands: int -> string): (r: Reply)
    ensures r == Invalid <==> VtcId(link).None?
    ensures VtcId(link).Some? ==>
      (match fetch(ApiUrl(VtcId(link).value))
       case HttpStatus(status) => r == HttpError(status)
       case FetchFailed => r == FetchError
       case Fetched(response) =>
         match Found(response)
         case None => r == NotFound
         case Some(v) =>
           r == if v.memberCount.Null? then Crashed
                else Info(InfoEmbed(VtcId(link).value, v, CountOr0(v.memberCount), thousands)))
  {
    match VtcId(link)
    case None => Invalid
    case Some(id) =>
      match fetch(ApiUrl(id))
      case HttpStatus(status) => HttpError(status)
      case FetchFailed => FetchError
      case Fetched(response) =>
        match Found(response)
        case None => NotFound
        case Some(v) =>
          match v.memberCount
          case Null => Crashed
          case _ => Info(InfoEmbed(id, v, CountOr0(v.memberCount), thousands))
  }

  /** A VTC that the API knows, with a member count that is not null, is always
      shown, and a missing count shows as 0. */
  lemma FoundIsShown(link: string, fetch: string -> Fetch, thousands: int -> string, v: Vtc)
    requires VtcId(link).Some? && fetch(ApiUrl(VtcId(link).value)) == Fetched(Present(v))
    requires !IsEmpty(v) && !v.memberCount.Null?
    ensures Respond(link, fetch, thousands).Info?
    ensures v.memberCount.Missing? ==> Respond(link, fetch, thousands).embed.fields[3].value == "0"
  {
  }
}
