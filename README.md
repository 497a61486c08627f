# Slot-Booking-bot in Dafny

A Dafny model of the logic of a Discord bot for the NepPath virtual trucking
company (VTC). It covers the following commands and settings:

- **Slot-booking board** (`bot.py`). Staff post a board of numbered slots with
  `/create`. Members claim one open slot each through the Book button and its
  form. The bot keeps two dictionaries in memory:
  - the boards, by message id: slot name → booker;
  - the slot names each user has booked, by guild and then by user.
  
  The model is the class `Booking.Registry`. Its methods update both
  dictionaries in place and keep two invariants:
  - every booked slot is recorded among its holder's booked names in the
    board's guild;
  - no user has booked the same slot name on two boards of one guild.

  The methods also promise that a booked slot never changes hands and that no
  user's set of booked names shrinks.
- **Announcement helpers** (`bot.py`): the "HH:MM UTC | HH:MM NPT" time text
  (Nepal Time is UTC+5:45), the manual start/finish overrides, and the event id
  read from a TruckersMP link.
- **`/upcoming`** (`vtcs/upcoming.py`): the events created by the caller's VTC,
  ordered by meetup time, at most ten.
- **`/events`** (`vtcs/neppath_events.py`): NepPath's events whose meetup falls
  on a given day, in the API's order.
- **`/vtc members`** (`app.py`): the members holding the VTC role, ordered by
  display name ignoring case, in pages of 25 lines. Also the `VTC_ROLE_ID` and
  `GUILD_ID` settings.
- **`/vtcinfo`** (`cogs/vtcinfo.py`) and **`/vtc_info`** (`vtcs/vtc.py`): a VTC
  looked up by link or id, and the embed shown for it.

Replies are values of a `Reply` datatype per command. HTTP responses,
`datetime.fromisoformat`, `strptime` and `escape_markdown` are inputs to the
model: functions from text to a result.

Python semantics the bot depends on are written out:

- `int()`: surrounding whitespace, a sign, `_` digit grouping, and the `0x` prefix in base 16.
- `str.split`, `str.replace`, `strip`, `lstrip`, `rstrip` and `lower`.
- `re.search(prefix + r"(\d+)")`: the leftmost match and the greedy digit run.
- Code-point string order and the stable `list.sort`.
- `dict.get(k, default)` on missing keys and JSON nulls.
- Truthiness of strings, dicts and ids.
- Adding 5:45 to a datetime, with day, month and year rollover and
  `OverflowError` after 9999-12-31.

Modules: `Wrappers`, `Text`, `Seqs`, `Sorting`, `Clock`, `DigitSearch`,
`Booking`, `Announcement`, `Events`, `Upcoming`, `NepPathEvents`, `Members`,
`VtcApi`, `VtcInfo`, `VtcLookup`.

Facts about the code that the model keeps:

- A claim books its slot at once (`bot.py` lines 235-236). A slot is only ever
  open or booked; there is no pending state and no staff decision step.
- `user_requests` is keyed by guild and then by user (`bot.py` lines 36 and
  231). So a slot name one user holds blocks that name on every board of the
  guild (`Booking.HeldBlocksEveryBoard`, `Booking.HolderRefused`). The model
  records the guild each board was posted in, because the form's interaction
  carries it.
- The board is rendered again in sorted order of slot names (`bot.py` line 239),
  so "Slot 10" comes before "Slot 2". It shows the booker's mention. The company
  typed in the form only appears in the confirmation (`bot.py` line 250).
- A `/create` colour that starts with "#" but that `int(..., 16)` rejects falls
  back to `discord.Color.cyan()` (`bot.py` lines 277-280). discord.py's `Colour`
  class has no `cyan`, so the fallback raises and `/create` fails before the
  board is posted. The model shows this as a `Crashed` reply that changes
  nothing.
- `/upcoming` crashes on an event whose creator is null or not an object.
  `/vtcinfo` crashes when the request fails or the member count is null, and
  `/vtc_info` crashes when the member count is null. The model shows these as
  `Crashed` replies.

## Model

| member | source | states |
|---|---|---|
| Booking.IsStaff | bot.py:40-41 | A member is staff exactly when one of their roles is among the five staff role ids. |
| Booking.SlotNames | bot.py:272 | For a <= b there are b - a + 1 names and the i-th is "Slot a+i"; for a > b there are none. |
| Booking.SlotNamesDistinct | bot.py:272 | No slot name appears twice in a range. |
| Booking.SlotNameInjective | bot.py:225 | Two slot names are equal only for equal numbers. |
| Booking.ParseRange | bot.py:270-274 | A range with a result has exactly one "-". With one "-", it parses exactly when int() accepts both sides, and the result is their two values. |
| Booking.ParseRangeOfNumerals | bot.py:270-272 | "a-b" written with two numerals reads back as the pair (a, b). |
| Booking.ParseRangeNeedsOneDash | bot.py:270-274 | A range with no dash, or with more than one, is rejected. |
| Booking.SlotLine | bot.py:240-242 | A slot's line begins with "Available" exactly when the slot is open. |
| Booking.SlotLineShowsHolder | bot.py:240-242 | Two different holders never give the same booked line: the line names its holder. |
| Booking.OpenBoard | bot.py:290 | A new board has exactly the listed names as slots, and every slot is open. |
| Booking.OpenBoardSize | bot.py:290-292 | A board built from Slot a .. Slot b has one entry per name, so the count in the reply is the board's size. |
| Booking.ColourOf | bot.py:276-280 | Only a colour that starts with "#" can fail. A colour name, known or not, always gives a colour. |
| Booking.ColourOfNoHexDigit | bot.py:277-280 | "#" with no hexadecimal digit after it, "#" alone included, makes int() fail, so `/create` raises. |
| Booking.ColourOfHex | bot.py:276-278 | "#" followed by the hexadecimal numeral of v gives colour v. |
| Booking.ColourOfIgnoresCase | bot.py:276-278 | Colour names are matched ignoring case. |
| Booking.AddHeld | bot.py:231-236 | The user's set in that guild gains the slot name; every other user's set is unchanged. |
| Booking.CheckClaim | bot.py:222-233 | Each error is given exactly when its check is the first to fail, in the code's order: the text is not all digits, "Slot " + int(text) is not on the board, that slot is booked, or the user already holds that name in the guild. Otherwise the claim passes with that slot. |
| Booking.CheckClaimLeadingZeros | bot.py:225 | "07" and "7" address the same slot, with the same outcome. |
| Booking.HolderRefused | bot.py:226-233 | Whoever has booked a slot is refused that slot number on every board of the same guild, the slot's own board included. |
| Booking.HeldBlocksEveryBoard | bot.py:231-233 | A slot name the user holds in the guild is refused on every board, even where that slot is open. |
| Booking.BookOneMore | bot.py:235-246 | Booking an open slot adds exactly that slot to the booked ones, so the booked count grows by one. |
| Booking.AllBookedByCount | bot.py:246-247 | Every slot is booked exactly when the booked count equals the number of slots. |
| Booking.RenderBoard | bot.py:238-247 | The board lists every slot exactly once, in sorted order of names. The footer gives the number of booked slots out of all slots, and the updater. |
| Booking.BookKeeps | bot.py:228-236 | Booking an open slot for a user who does not hold that name in the board's guild, and recording it there, keeps both invariants. No booked slot changes hands, no board gains or loses slots, and no booked-name set shrinks. |
| Booking.PostKeeps | bot.py:289-290 | Posting a new board whose slots are all open keeps both invariants and leaves every existing board unchanged. |
| Booking.Registry.constructor | bot.py:35-36 | Both dictionaries start empty, and the invariants hold. |
| Booking.Registry.Create | bot.py:264-292 | "Staff only!" exactly for non-staff callers, and "Invalid range!" exactly for staff with a range that does not parse. A crash exactly when, after that, the colour is a "#" text int() rejects. In these three cases nothing changes. Otherwise the one new board, recorded with its guild, has every slot of the range open, and the reply carries the slot count, the colour and the all-open listing. |
| Booking.Registry.Post | bot.py:289-290 | The new board is stored under its message id with its guild; nothing else changes, and the invariants hold. |
| Booking.Registry.BookButton | bot.py:203-210 | "Booking expired." exactly when the board is unknown, and "All slots taken!" exactly when the booked count reaches the slot count. Otherwise the form opens. |
| Booking.Registry.Claim | bot.py:221-250 | The checks run against the board and the user's names in the board's guild. A failed check replies with the first failing check, and neither dictionary changes. A passing claim books the slot for the user and adds it to their set in that guild. The board is rendered again, and the confirmation echoes the company name. The invariants hold either way. |
| Booking.Registry.Book | bot.py:235-236 | The open slot is booked for the user and recorded among their names in the board's guild; the invariants hold. |
| Sorting.LessIrreflexive | bot.py:239 | No string sorts before itself. |
| Sorting.LessTransitive | bot.py:239 | Python's string order is transitive. |
| Sorting.LessTotal | bot.py:239 | Of two different strings, one sorts before the other. |
| Sorting.LessAsymmetric | bot.py:239 | Two strings never sort before each other. |
| Sorting.SlotTenBeforeSlotTwo | bot.py:239 | "Slot 10" sorts before "Slot 2": the board's order is by string, not by number. |
| Sorting.InsertSorted | bot.py:239 | Inserting a new name into a sorted list keeps it sorted, and adds exactly that name. |
| Sorting.SortedKeys | bot.py:239 | The keys of a dictionary come out strictly increasing, each key once. |
| Sorting.StableSortCorrect | vtcs/upcoming.py:53 | The sort orders by key and is a permutation of its input. It is stable: elements that share a key keep their order. |
| Text.Strip | bot.py:141-144 | The result is a piece s[i..j] of the text with only whitespace before i and after j, and no whitespace at its own ends. It is empty exactly when the text is all whitespace. |
| Text.StripUnique | bot.py:141-144 | Any piece with those properties is the result of strip, so the contract of Strip determines it. |
| Text.StripIdempotent | bot.py:141-144 | Stripping twice is stripping once. |
| Text.LStrip | bot.py:278 | Removes exactly the leading run of the given character. |
| Text.RStrip | vtcs/upcoming.py:67 | Removes exactly the trailing run of the given character. |
| Text.Lower | vtcs/upcoming.py:46 | Lower-cases every character and keeps the length. |
| Text.LowerIdempotent | app.py:62 | Lower-casing twice is lower-casing once. |
| Text.NatToDigits | bot.py:278 | The numeral of n in a base reads back as n. |
| Text.IntToStringInjective | bot.py:272 | Different integers have different decimal texts. |
| Text.LeadingZero | bot.py:225 | A leading zero does not change a numeral's value. |
| Text.Pad | bot.py:48 | A zero-padded numeral has at least the width, only digits, and reads back as its number. |
| Text.PyInt | bot.py:271 | int() succeeds only on text that holds a digit of the base. |
| Text.PyIntNeedsDigit | app.py:13-17 | int() rejects text with no digit. |
| Text.PyIntOfSigned | bot.py:278 | int() of an optional "-" and a numeral in a base is that number, signed. |
| Text.PyIntOfIntToString | bot.py:271 | int(str(n)) == n. |
| Text.Split | bot.py:271 | split gives at least one piece, and no piece holds the separator. |
| Text.JoinSplit | bot.py:271 | Joining the pieces with the separator gives back the text. |
| Text.SplitCount | bot.py:271 | There is one more piece than there are separators. |
| Text.SplitPair | bot.py:271 | x + sep + y splits into exactly x and y when neither holds the separator. |
| Text.Replace | bot.py:45 | Replace leaves text without the character unchanged. It leaves no copy of the character when the replacement has none. |
| Text.ReplaceIsJoinSplit | bot.py:45 | Replacing a character is splitting at it and joining with the replacement. |
| Seqs.Filter | app.py:57 | Keeps exactly the elements the test accepts and never adds any. |
| Seqs.FilterAppend | vtcs/neppath_events.py:45-57 | Filtering distributes over concatenation, so the kept elements stay in the input's order. |
| Seqs.MapEach | vtcs/neppath_events.py:64-98 | The for-each loop yields one result per element, in order. |
| Clock.NextDay | bot.py:48 | The next date is one day number later; there is none after 31 December 9999. |
| Clock.DayNumberInjective | bot.py:48 | Different dates have different day numbers. |
| Clock.ShiftToNpt | bot.py:48 | Adding 5:45 gives a time 345 minutes later whose time of day wraps at midnight. It overflows exactly when that runs past 31 December 9999. |
| Clock.FormatHm | bot.py:48 | "%H:%M" is five characters, two digits each side of ":", that read back as the hour and the minute. |
| Clock.ClockFields | bot.py:48 | An "HH:MM" text that reads m minutes after midnight shows exactly the hour and the minute of m. |
| Clock.HmReading | bot.py:48 | "%H:%M" reads back as the time of day it was printed from. |
| Clock.FormatYmdHm | vtcs/upcoming.py:68 | "%Y-%m-%d %H:%M" has its separators in place, and its fields read back as year, month, day, hour and minute. |
| Clock.YmdHmReading | vtcs/upcoming.py:68-69 | "%Y-%m-%d %H:%M" reads back as the date and time it was printed from. |
| Announcement.Shifted | bot.py:44-47 | A time is known exactly when it is present, non-empty, parses after "Z" becomes "+00:00", and does not overflow when shifted. Its Nepal Time counterpart is 5:45 later on the clock. |
| Announcement.FormatTime | bot.py:43-50 | "Unknown" for an unknown time. Otherwise "HH:MM UTC \| HH:MM NPT". Each clock is two digits, ":" and two digits, with the hour below 24 and the minute below 60. The first clock reads the time, and the second reads 5:45 later, wrapping at midnight. |
| Announcement.UtcAndNpt | bot.py:48 | The two-clock text reads back as the UTC time of day and that time plus 5:45, modulo a day. |
| Announcement.Override | bot.py:141-144 | Blank manual text keeps the API's city and adds no tag. Other text gives the stripped text, non-empty, tagged " (manual)". |
| Announcement.OverrideIgnoresPadding | bot.py:141-144 | Whitespace around the manual text makes no difference. |
| Announcement.EventId | bot.py:98-102 | The id is a digit string, and there is none exactly when "/events/" followed by a digit occurs nowhere in the stripped link. |
| Announcement.EventIdOfLink | bot.py:98-102 | In host + "/events/" + digits + rest, the digits are the id whatever follows them, given a host with no "/e". |
| Announcement.SiteLinkId | bot.py:98-102 | A TruckersMP event page yields its own id. |
| Announcement.EventIdExample | bot.py:75 | The placeholder link https://truckersmp.com/events/12345 yields "12345". |
| DigitSearch.SearchDigits | bot.py:98 | re.search finds nothing exactly when the pattern matches nowhere. Otherwise it captures the maximal digit run after the leftmost match. |
| DigitSearch.FirstRunOfDigits | cogs/vtcinfo.py:17 | Without a prefix, the capture is the maximal digit run at the first digit. |
| DigitSearch.NoMatchInDigits | vtcs/vtc.py:17-20 | A prefix holding a non-digit never matches inside a plain number. |
| DigitSearch.SearchAfterHost | vtcs/vtc.py:17 | In host + prefix + digits + rest, the capture is those digits. |
| Events.EventLinkRoundTrip | vtcs/upcoming.py:57 | A card's event link gives the event's id back to the announcement form. |
| Events.MeetupTimes | vtcs/upcoming.py:66-72 | A meetup time is known exactly when present, parseable after trailing "Z"s are stripped, and not overflowing. Its Nepal Time counterpart is 345 minutes later. |
| Events.TimeText | vtcs/upcoming.py:65-72 | The text is "Unknown time" exactly when the meetup time is unknown. |
| Events.TimeTextShows | vtcs/upcoming.py:66-72 | A known time is shown as the UTC date and time, " UTC \| ", the Nepal Time date and time, then " NPT". Each has its separators in place, a digit-only year, month and day, and an "HH:MM" clock. The fields read back as the two times, which are 5:45 apart. |
| Upcoming.Matching | vtcs/upcoming.py:42-47 | The kept events are exactly those whose creator name is non-empty and equals the VTC name ignoring case. |
| Upcoming.MatchingIgnoresCase | vtcs/upcoming.py:46 | The case of the VTC name does not change which events are kept. |
| Upcoming.FilterByVtc | vtcs/upcoming.py:42-47 | The loop crashes exactly when some creator is null or not an object. Otherwise it yields the matching events in the API's order. |
| Upcoming.EmptyKeyFirst | vtcs/upcoming.py:53 | "" sorts before every other meetup key. |
| Upcoming.MissingTimesFirst | vtcs/upcoming.py:53 | After the sort, events without a meetup time come before all others. |
| Upcoming.CardOf | vtcs/upcoming.py:74-85 | A card's title is the event's name and its footer names the caller's VTC. |
| Upcoming.ShowCards | vtcs/upcoming.py:55 | Cards for the first ten sorted events, or all when fewer, in order. |
| Upcoming.ListUpcoming | vtcs/upcoming.py:16-87 | Each reply is given exactly in its case. "No VTC" exactly when the caller has no VTC name, whatever the API would answer. Then, an HTTP error with its status exactly for a non-200 status, and "Failed to fetch" exactly for a failed request. A crash exactly for a null response or a null or non-object creator. "No upcoming events" exactly when nothing matches. Otherwise one card for each of the first ten (or fewer) matching events sorted by meetup time. |
| NepPathEvents.Scheduled | vtcs/neppath_events.py:45-57 | The kept events are those whose creator is an object named "NepPath" ignoring case, and whose meetup time is present, parses, and falls on the day. |
| NepPathEvents.FilterScheduled | vtcs/neppath_events.py:45-57 | The filter loop with its early `continue`s yields exactly those events, in the API's order. |
| NepPathEvents.EventName | vtcs/neppath_events.py:65 | A missing or empty name becomes "Unnamed Event". |
| NepPathEvents.CardOf | vtcs/neppath_events.py:86-96 | The title is the event's name, or "Unnamed Event", followed by " \| NepPath". The footer is "VTC: NepPath", and the link is the event's page. |
| NepPathEvents.ListedTimeKnown | vtcs/neppath_events.py:75-83 | A listed event always shows its time, unless the query day is 31 December 9999. |
| NepPathEvents.ShowEvents | vtcs/neppath_events.py:64-98 | One card per matched event, in order. |
| NepPathEvents.ListEvents | vtcs/neppath_events.py:20-102 | A date strptime rejects is turned away before any request. An HTTP error is reported, and a failed request or a null response is an unexpected error. No match gives "No events found" for the date; otherwise there is one card per matched event. |
| Members.RoleIdSetting | app.py:13-17 | VTC_ROLE_ID defaults to 0 when unset. |
| Members.RoleIdOfNumeral | app.py:14 | A decimal id reads back as that id. |
| Members.RoleIdRejectsNoDigits | app.py:13-17 | A value without a digit stops the program. |
| Members.GuildSetting | app.py:19-24 | An unset or empty GUILD_ID gives no guild. |
| Members.GuildOfNumeral | app.py:19-24 | A decimal guild id reads back, and commands sync to that guild exactly when it is not 0. |
| Members.WithRole | app.py:57 | The listed members are exactly those holding the role, in the guild's order. |
| Members.EmojiTellsStatus | app.py:65 | Online, idle and do-not-disturb each have their own emoji; all other statuses share one. |
| Members.Line | app.py:65-66 | A member's line starts with their status emoji and ends with their user name in parentheses. |
| Members.MemberLines | app.py:63-66 | One line per member, in sorted order. |
| Members.Chunks | app.py:68-72 | There are no pages exactly when there are no lines. Every page holds 1 to 25 lines. |
| Members.ChunksFlatten | app.py:69-72 | Putting the pages back together gives every line once, in order. |
| Members.ChunksShape | app.py:69-72 | There are ceil(n/25) pages, each with 1 to 25 lines, and all but the last are full. |
| Members.Paginate | app.py:68-76 | One embed per page. Only the first is titled "VTC Members", later ones "VTC Members (continued)", and every footer gives the total. |
| Members.ListMembers | app.py:48-78 | "VTC role not found" exactly when the role is unknown, and "No one has the VTC role yet" exactly when no member holds it. Otherwise the pages list the members sorted by lower-cased name. |
| VtcApi.Found | cogs/vtcinfo.py:30-33 | A missing, null or empty response is not found; any other record is used as is. |
| VtcApi.Shown | cogs/vtcinfo.py:38 | A missing key shows the default and a null shows "None". |
| VtcApi.OrangeRgb | vtcs/vtc.py:45 | from_rgb(255, 90, 32) is the orange 0xFF5A20 that /vtcinfo uses. |
| VtcInfo.IdOf | cogs/vtcinfo.py:17-21 | There is no id exactly when the link has no digit. Otherwise the id is the maximal digit run at the first digit. |
| VtcInfo.IdOfNumber | cogs/vtcinfo.py:17-21 | A plain number is taken whole. |
| VtcInfo.IdAfterWords | cogs/vtcinfo.py:17 | Words without digits before a number do not change the id. |
| VtcInfo.IdOfProfileUrl | cogs/vtcinfo.py:42 | The VTC page the embed links to reads back as its id. |
| VtcInfo.MemberCountText | cogs/vtcinfo.py:35-36 | The count text always ends with " members". |
| VtcInfo.MemberCountReading | cogs/vtcinfo.py:35-36 | The count text is two words ending in "members". Below 1000 the first word reads back as the count. From 1000 it is k followed by "K", where k thousands is at most the count and less than k + 1 thousands. |
| VtcInfo.InfoEmbed | cogs/vtcinfo.py:37-50 | The embed links to the VTC page and is orange, with five fields: the id, the creation date or "Unknown", recruitment "Open" exactly when recruitmentOpen is true (else "Closed"), the member count text, and the description. The title falls back to "Unknown" and "". |
| VtcInfo.Respond | cogs/vtcinfo.py:9-52 | Non-staff callers are refused, and a staff link without a digit is invalid. "VTC not found" exactly for a non-200 status or a missing, null or empty record. A crash exactly for a failed request or a null member count. Otherwise the embed is built from the record, with a missing member count read as 0. |
| VtcInfo.FoundIsShown | cogs/vtcinfo.py:30-50 | A staff lookup of a VTC the API knows, with a member count, always shows it. |
| VtcLookup.VtcId | vtcs/vtc.py:17-23 | The id is the digits after the first "/vtc/" that a digit follows. Otherwise the whole argument is the id when it is all digits; anything else is invalid. |
| VtcLookup.NumberIsId | vtcs/vtc.py:17-21 | A plain number is its own id. |
| VtcLookup.ProfileLinkId | vtcs/vtc.py:17-19 | A VTC page address yields its id, whatever non-digit text follows. |
| VtcLookup.ProfileUrlRoundTrip | vtcs/vtc.py:17-19 | The page /vtcinfo links to gives the same id to both commands. |
| VtcLookup.MembersDisplay | vtcs/vtc.py:39-40 | Below 1000 the members field reads back as the count; from 1000 it is the one-decimal thousands text. |
| VtcLookup.InfoEmbed | vtcs/vtc.py:42-55 | The title is "name (ID: id)" and the colour is from_rgb(255, 90, 32). Rules, recruitment state and founding date fall back to "No rules listed", "Unknown" and "Unknown". The description falls back to "No description", and a null description gives none. There is a thumbnail exactly when the logo is a non-empty text. |
| VtcLookup.Respond | vtcs/vtc.py:14-57 | An argument without an id is invalid before any request. A non-200 status and a failed request are reported, and a missing, null or empty record is "VTC not found". A null member count crashes. Otherwise the reply is the embed built from the id and the record, with a missing member count read as 0. |
| VtcLookup.FoundIsShown | vtcs/vtc.py:35-51 | A VTC the API returns, with a member count that is not null, is always shown, and a missing count shows as "0". |

## Left out

- Discord plumbing is not modelled: modals, views, buttons, embeds sent or edited, command registration and sync, `bot.run`, logging and `print`. Replies are returned values.
- HTTP requests are inputs (`Fetch` values) and are not modelled. So is the image probe `is_image` and every image, thumbnail, banner, avatar and author icon that depends on it.
- `datetime.fromisoformat` and `strptime` are function parameters. Only the shift by 5:45 and the strftime layouts are modelled, to the minute; seconds and time zones are left out.
- `format_date` and the announcement embed's other fields are not modelled: weekday and month names, and the API event fallbacks in `bot.py` lines 106-136.
- The embeds' `utcnow` timestamps are not modelled; a clock is outside the model.
- `discord.utils.escape_markdown` is a function parameter.
- VtcLookup.MembersDisplay: from 1000 on, the `.1f` float formatting is the parameter `thousands`; floating point is not modelled.
- Python's Unicode-aware `isdigit`, `strip`, `lower` and `int` are modelled for ASCII only.
- `Clock.FormatYmdHm`: years below 1000 are printed without padding, as glibc's `%Y` does.
- Embed size limits are not modelled. Neither are JSON fields of unexpected types, or a response that is not an object, beyond a null creator and a null or non-object response.
- Booking.Registry.Create requires a fresh message id: `channel.send` always creates a new message.
- Booking.Registry.Claim requires the board to exist: the form only opens from the Book button after that lookup succeeded, and boards are never removed.
- VtcInfo.Respond takes the staff check as a boolean: `is_staff_member` is the bot's own function, passed in.
- Concurrent handlers interleaving at `await` points are not modelled; the model is sequential.
- `webserver.py`, `decline.py`, `Decline_time.py`, `ac/review.py`, `vtcs/myvtc.py` and `vtcs/my_vtc_panel.py` are not part of this model.
