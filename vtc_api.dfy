/** The TruckersMP VTC record as the two VTC commands read it from
    GET https://api.truckersmp.com/v2/vtc/{id}, and the embed they answer with. */
module VtcApi {
  import opened Wrappers
  import opened Text

  /** The keys of the "response" object that either command reads. `extra` says
      whether the object holds any other key: Python treats a dict as false exactly
      when it has no key at all. */
  datatype Vtc = Vtc(
    name: Field<string>,
    tag: Field<string>,
    description: Field<string>,
    members: Field<int>,
    memberCount: Field<int>,
    recruitmentOpen: Field<bool>,
    recruitmentState: Field<string>,
    creationDate: Field<string>,
    foundingDate: Field<string>,
    rules: Field<string>,
    logo: Field<string>,
    extra: bool)

  /** `not vtc` for the response object. */
  predicate IsEmpty(v: Vtc) {
    v.name.Missing? && v.tag.Missing? && v.description.Missing? && v.members.Missing?
    && v.memberCount.Missing? && v.recruitmentOpen.Missing? && v.recruitmentState.Missing?
    && v.creationDate.Missing? && v.foundingDate.Missing? && v.rules.Missing?
    && v.logo.Missing? && !v.extra
  }

  /** What the HTTP request gives: a status other than 200, a request or JSON
      decoding that raised, or the "response" key of the decoded body. */
  datatype Fetch =
    | HttpStatus(status: int)            // a status other than 200
    | FetchFailed                        // the request or the JSON decoding raised
    | Fetched(response: Field<Vtc>)

  /** The record a command goes on with: `not vtc` turns away a missing or null
      "response" and an empty object alike. */
  function Found(response: Field<Vtc>): (r: Option<Vtc>)
    ensures r.Some? <==> response.Present? && !IsEmpty(response.value)
    ensures r.Some? ==> r.value == response.value
  {
    if response.Present? && !IsEmpty(response.value) then Some(response.value) else None
  }

  const HttpOk := 200

  /** The address both commands fetch. */
  function ApiUrl(id: string): string {
    "https://api.truckersmp.com/v2/vtc/" + id
  }

  /** `vtc.get(k, 0)` for a count that is not null. */
  function CountOr0(f: Field<int>): int
    requires !f.Null?
  {
    if f.Present? then f.value else 0
  }

  /** The VTC's page on the TruckersMP site. */
  function ProfileUrl(id: string): string {
    "https://truckersmp.com/vtc/" + id
  }

  /** The text a string-valued key shows, by `str(vtc.get(k, default))`: the default
      for a missing key and "None" for a null. */
  function Shown(f: Field<string>, default: string): (r: string)
    ensures f.Missing? ==> r == default
    ensures f.Null? ==> r == "None"
    ensures f.Present? ==> r == f.value
  {
    match f
    case Missing => default
    case Null => "None"
    case Present(s) => s
  }

  datatype EmbedField = EmbedField(name: string, value: string, inline: bool)

  datatype Embed = Embed(
    title: string,
    url: Option<string>,
    description: Option<string>,
    colour: int,
    fields: seq<EmbedField>,
    thumbnail: Option<string>,
    footer: Option<string>)

  /** discord.Color.from_rgb. */
  function FromRgb(red: nat, green: nat, blue: nat): nat
    requires red < 256 && green < 256 && blue < 256
  {
    red * 0x1_0000 + green * 0x100 + blue
  }

  /** The orange both commands paint their embed with. */
  const Orange := 0xFF5A20

  lemma OrangeRgb()
    ensures FromRgb(255, 90, 32) == Orange
  {
  }
}
