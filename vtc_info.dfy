/** The /vtcinfo command: a staff member gives a VTC link or id, and the bot answers
    with the VTC's name, tag, founding date, recruitment and size. The check for
    staff is the bot's own and reaches the command as a yes or no. */
module VtcInfo {
  import opened Wrappers
  import opened Text
  import opened DigitSearch
  import opened VtcApi

  datatype Reply =
    | NotAllowed              // "You are not allowed to use this command."
    | InvalidId               // "Invalid VTC link or ID."
    | NotFound                // "VTC not found."
    | Crashed                 // an exception escapes the handler
    | Info(embed: Embed)

  /** re.search(r"(\d+)", link).group(1): the first run of digits anywhere in the link. */
  function IdOf(link: string): (r: Option<string>)
    ensures r.None? <==> NoDigit(link)
    ensures r.Some? ==>
      exists i :: (0 <= i < |link| && IsDigit(link[i])
        && (forall j :: 0 <= j < i ==> !IsDigit(link[j])) && r.value == DigitRun(link, i))
  {
    var r := SearchDigits(link, "");
    MatchEmptyPrefix(link);
    if r.Some? then
      var i: nat :| LeftmostMatch(link, "", i) && r.value == DigitRun(link, i);
      assert MatchAt(link, "", i);
      r
    else
      r
  }

  /** An id typed as a plain number is taken whole. */
  lemma IdOfNumber(link: string)
    requires IsDigits(link)
    ensures IdOf(link) == Some(link)
  {
    FirstRunOfDigits(link, 0);
    DigitRunOf(link, 0, link);
  }

  /** Words without digits in front of a number do not change the id read. */
  lemma IdAfterWords(words: string, id: string)
    requires NoDigit(words)
    requires IsDigits(id)
    ensures IdOf(words + id) == Some(id)
  {
    var u := words + id;
    assert u[|words|..] == id;
    assert u[|words|] == id[0];
    FirstRunOfDigits(u, |words|);
    DigitRunOf(u, |words|, id);
  }

  /** The address the reply links to reads back as the id it was built from. */
  lemma IdOfProfileUrl(id: string)
    requires IsDigits(id)
    ensures IdOf(ProfileUrl(id)) == Some(id)
  {
    var words := "https://truckersmp.com/vtc/";
    assert NoDigit(words);
    IdAfterWords(words, id);
  }

  /** f"{n//1000}K members" from a thousand on, f"{n} members" below. */
  function MemberCountText(n: int): (r: string)
    ensures |r| > 8 && r[|r| - 8..] == " members"
  {
    if n >= 1000 then IntToString(n / 1000) + "K members" else IntToString(n) + " members"
  }

  /** The member count reads back: the first word is the count itself below a
      thousand, and otherwise the number of whole thousands followed by "K". */
  lemma MemberCountReading(n: int)
    ensures var words := Split(MemberCountText(n), ' ');
      && |words| == 2 && words[1] == "members"
      && (n < 1000 ==> PyInt(words[0], 10) == Some(n))
      && (n >= 1000 ==>
            (|words[0]| >= 2 && words[0][|words[0]| - 1] == 'K'
             && var k := PyInt(words[0][..|words[0]| - 1], 10);
                k.Some? && k.value * 1000 <= n < k.value * 1000 + 1000))
  {
    if n >= 1000 {
      ThousandsWords(n);
      var w := IntToString(n / 1000) + "K";
      assert w[..|w| - 1] == IntToString(n / 1000);
      PyIntOfIntToString(n / 1000);
    } else {
      UnitsWords(n);
      PyIntOfIntToString(n);
    }
  }

  lemma ThousandsWords(n: int)
    requires n >= 1000
    ensures Split(MemberCountText(n), ' ') == [IntToString(n / 1000) + "K", "members"]
  {
    var x := IntToString(n / 1000) + "K";
    NumeralChars(n / 1000);
    assert ' ' !in x;
    assert MemberCountText(n) == x + " members";
    CountWords(x);
  }

  lemma UnitsWords(n: int)
    requires n < 1000
    ensures Split(MemberCountText(n), ' ') == [IntToString(n), "members"]
  {
    NumeralChars(n);
    assert ' ' !in IntToString(n);
    CountWords(IntToString(n));
  }

  lemma CountWords(x: string)
    requires ' ' !in x
    ensures Split(x + " members", ' ') == [x, "members"]
  {
    assert x + " members" == x + [' '] + "members";
    SplitPair(x, "members", ' ');
  }

  const Footer := "Powered by NepPath | TruckersMP API"

  /** The embed for a VTC found under id, with its member count already read. */
  function InfoEmbed(id: string, v: Vtc, members: int): (e: Embed)
    ensures e.url == Some(ProfileUrl(id)) && e.colour == Orange && |e.fields| == 5
    ensures e.fields[0].value == id && e.fields[3].value == MemberCountText(members)
    ensures e.fields[2].value == "Open" <==> v.recruitmentOpen == Present(true)
    ensures e.fields[2].value in {"Open", "Closed"}
    ensures e.title == Shown(v.name, "Unknown") + " [" + Shown(v.tag, "") + "]"
    ensures e.fields[1].value == Shown(v.creationDate, "Unknown")
    ensures e.fields[4].value == Shown(v.description, "No description provided")
  {
    var recruitment := if v.recruitmentOpen == Present(true) then "Open" else "Closed";
    Embed(
      Shown(v.name, "Unknown") + " [" + Shown(v.tag, "") + "]",
      Some(ProfileUrl(id)),
      None,
      Orange,
      [ EmbedField("📌 VTC ID", id, true),
        EmbedField("📅 Created", Shown(v.creationDate, "Unknown"), true),
        EmbedField("📈 Recruitment", recruitment, true),
        EmbedField("👥 Members", MemberCountText(members), true),
        EmbedField("📜 Description / Rules", Shown(v.description, "No description provided"), false) ],
      None,
      Some(Footer))
  }

  /** The API turned the id away: a status other than 200, or no record. */
  predicate NotFoundAt(f: Fetch) {
    f.HttpStatus? || (f.Fetched? && Found(f.response).None?)
  }

  /** The reply to /vtcinfo link. `fetch` answers the request for each address;
      the command has no handler for a failed request, so that one crashes. */
  function Respond(staff: bool, link: string, fetch: string -> Fetch): (r: Reply)
    ensures r == NotAllowed <==> !staff
    ensures staff ==> (r == InvalidId <==> NoDigit(link))
    ensures r == NotFound <==>
      (staff && IdOf(link).Some? && NotFoundAt(fetch(ApiUrl(IdOf(link).value))))
    ensures r == Crashed <==>
      (staff && IdOf(link).Some?
       && var f := fetch(ApiUrl(IdOf(link).value));
          (f.FetchFailed? || (f.Fetched? && Found(f.response).Some? && Found(f.response).value.members.Null?)))
    ensures r.Info? ==>
      (staff && IdOf(link).Some?
       && var id := IdOf(link).value;
          && fetch(ApiUrl(id)).Fetched?
          && var v := Found(fetch(ApiUrl(id)).response);
             && v.Some? && !v.value.members.Null?
             && r.embed == InfoEmbed(id, v.value, CountOr0(v.value.members)))
  {
    if !staff then NotAllowed
    else match IdOf(link)
      case None => InvalidId
      case Some(id) =>
        match fetch(ApiUrl(id))
        case HttpStatus(_) => NotFound
        case FetchFailed => Crashed
        case Fetched(response) =>
          match Found(response)
          case None => NotFound
          case Some(v) =>
            match v.members
            case Null => Crashed
            case _ => Info(InfoEmbed(id, v, CountOr0(v.members)))
  }

  /** A VTC that the API knows, with a member count, is always shown. */
  lemma FoundIsShown(link: string, fetch: string -> Fetch, id: string, v: Vtc)
    requires IdOf(link) == Some(id) && fetch(ApiUrl(id)) == Fetched(Present(v))
    requires !IsEmpty(v) && !v.members.Null?
    ensures Respond(true, link, fetch).Info?
  {
  }
}
