/** The slot-booking board of bot.py. Staff create a board from a slot range; a
    member claims one open slot through a form; the claim is immediate, so a slot
    is either open or booked by one user. Two dictionaries hold the state: the
    boards by message id, and the slot names each user has booked, by guild and
    user. */
module Booking {
  import opened Wrappers
  import opened Text
  import opened Seqs
  import opened Sorting

  /** Discord user ids are positive, so a booked slot is always truthy. */
  type UserId = u: int | u > 0 witness 1
  type MessageId = int
  type GuildId = int
  type RoleId = int

  /** The slots of one board: slot name to the user who booked it, None while open. */
  type Slots = map<string, Option<UserId>>

  /** The slot names each user has booked, by guild and then by user. */
  type Requests = map<GuildId, map<UserId, set<string>>>

  // ---------------------------------------------------------------- staff

  const StaffRoleIds: seq<RoleId> :=
    [1395579577555878012, 1395579347804487769, 1395580379565527110, 1395699038715642031, 1395578532406624266]

  /** A member is staff when one of their roles is a staff role. */
  function IsStaff(roles: seq<RoleId>): (r: bool)
    ensures r <==> exists i :: 0 <= i < |roles| && roles[i] in StaffRoleIds
  {
    if |roles| == 0 then false
    else if roles[0] in StaffRoleIds then true
    else
      var r := IsStaff(roles[1..]);
      assert r ==> exists i :: 0 <= i < |roles| && roles[i] in StaffRoleIds by {
        if r {
          var i :| 0 <= i < |roles[1..]| && roles[1..][i] in StaffRoleIds;
          assert roles[i + 1] in StaffRoleIds;
        }
      }
      r
  }

  // ---------------------------------------------------------------- /create

  /** f"Slot {n}" */
  function SlotName(n: int): string {
    "Slot " + IntToString(n)
  }

  lemma SlotNameInjective(m: int, n: int)
    requires SlotName(m) == SlotName(n)
    ensures m == n
  {
    assert SlotName(m)[5..] == IntToString(m);
    assert SlotName(n)[5..] == IntToString(n);
    IntToStringInjective(m, n);
  }

  /** [f"Slot {n}" for n in range(a, b + 1)] */
  function SlotNames(a: int, b: int): (r: seq<string>)
    ensures |r| == if a <= b then b - a + 1 else 0
    ensures forall i :: 0 <= i < |r| ==> r[i] == SlotName(a + i)
  {
    if a > b then [] else seq(b - a + 1, i => SlotName(a + i))
  }

  lemma SlotNamesDistinct(a: int, b: int)
    ensures Distinct(SlotNames(a, b))
  {
    var r := SlotNames(a, b);
    forall i, j | 0 <= i < j < |r| ensures r[i] != r[j] {
      assert r[i] == SlotName(a + i) && r[j] == SlotName(a + j);
      if r[i] == r[j] {
        SlotNameInjective(a + i, a + j);
      }
    }
  }

  /** `start, end = map(int, slot_range.split("-"))`: exactly two pieces, each an
      integer as int() reads it; anything else is "Invalid range!". */
  function ParseRange(s: string): (r: Option<(int, int)>)
    ensures r.Some? ==> Count(s, '-') == 1
    ensures Count(s, '-') == 1 ==>
      var p := Split(s, '-');
      && |p| == 2 && s == p[0] + "-" + p[1]
      && (r.Some? <==> PyInt(p[0], 10).Some? && PyInt(p[1], 10).Some?)
      && (r.Some? ==> r.value == (PyInt(p[0], 10).value, PyInt(p[1], 10).value))
  {
    SplitCount(s, '-');
    JoinSplit(s, '-');
    var parts := Split(s, '-');
    assert |parts| == 2 ==> Join(parts, "-") == parts[0] + "-" + parts[1] by {
      if |parts| == 2 {
        assert Join(parts[1..], "-") == parts[1];
      }
    }
    if |parts| != 2 then None
    else
      match (PyInt(parts[0], 10), PyInt(parts[1], 10))
      case (Some(a), Some(b)) => Some((a, b))
      case _ => None
  }

  /** "a-b" for two numerals reads back as (a, b). */
  lemma ParseRangeOfNumerals(a: nat, b: nat)
    ensures ParseRange(NatToString(a) + "-" + NatToString(b)) == Some((a, b))
  {
    var x, y := NatToString(a), NatToString(b);
    assert '-' !in x && '-' !in y by {
      NumeralChars(a);
      NumeralChars(b);
    }
    SplitPair(x, y, '-');
    PyIntOfIntToString(a);
    PyIntOfIntToString(b);
  }

  /** A range without a dash, or with more than one, is rejected. */
  lemma ParseRangeNeedsOneDash(s: string)
    requires Count(s, '-') != 1
    ensures ParseRange(s).None?
  {
    SplitCount(s, '-');
  }

  /** One line of a board: open slots read "Available", booked ones mention the user. */
  function SlotLine(name: string, holder: Option<UserId>): (r: string)
    ensures |r| >= 9 && (holder.None? <==> r[..9] == "Available")
  {
    match holder
    case None => "Available **" + name + "** → Available"
    case Some(u) =>
      var r := "Booked **" + name + "** → <@" + IntToString(u) + ">";
      assert r[0] == 'B';
      r
  }

  /** A booked line names its holder: two holders never give the same line. */
  lemma SlotLineShowsHolder(name: string, u: UserId, v: UserId)
    requires SlotLine(name, Some(u)) == SlotLine(name, Some(v))
    ensures u == v
  {
    var head := "Booked **" + name + "** → <@";
    var a := SlotLine(name, Some(u));
    assert a == head + IntToString(u) + ">" && SlotLine(name, Some(v)) == head + IntToString(v) + ">";
    assert a[|head|..|a| - 1] == IntToString(u);
    assert SlotLine(name, Some(v))[|head|..|a| - 1] == IntToString(v);
    IntToStringInjective(u, v);
  }

  /** {s: None for s in slots} */
  function OpenBoard(names: seq<string>): (r: Slots)
    ensures forall k :: k in r <==> k in names
    ensures forall k :: k in r ==> r[k].None?
  {
    map k | k in names :: None
  }

  /** A board built from Slot a .. Slot b has one entry per slot, all open. */
  lemma OpenBoardSize(a: int, b: int)
    ensures |OpenBoard(SlotNames(a, b))| == |SlotNames(a, b)|
  {
    var names := SlotNames(a, b);
    SlotNamesDistinct(a, b);
    DistinctCard(names);
    assert OpenBoard(names).Keys == set x | x in names;
  }

  predicate IsHash(c: char) {
    c == '#'
  }

  /** The colour of a new board: discord.Color(int(colour.lstrip("#"), 16)) for
      "#..." and otherwise the named colour, cyan 0x00ffff for an unknown name.
      None where int() fails: the fallback there calls Color.cyan(), which
      discord.py's Colour does not define, so /create raises before it posts. */
  function ColourOf(name: string): (r: Option<int>)
    ensures r.None? ==> |name| > 0 && name[0] == '#'
  {
    if |name| > 0 && name[0] == '#' then PyInt(LStrip(name, IsHash), 16)
    else
      var key := Lower(name);
      Some(if key == "green" then 0x00ff00
           else if key == "red" then 0xff0000
           else if key == "blue" then 0x0000ff
           else 0x00ffff)
  }

  /** "#" followed by the hexadecimal numeral of v gives colour v. */
  lemma ColourOfHex(v: nat)
    ensures ColourOf("#" + NatToDigits(v, 16)) == Some(v)
  {
    var d := NatToDigits(v, 16);
    var s := "#" + d;
    HashThenNumeral(d);
    assert !HasHexPrefix(d) by {
      if |d| >= 2 {
        assert IsDigitIn(d[1], 16);
      }
    }
    PyIntOfSigned(false, d, 16);
    assert "" + d == d;
    assert PyInt(LStrip(s, IsHash), 16) == Some(v);
  }

  /** "#" with no hexadecimal digit after it, "#" alone included, makes /create
      raise. */
  lemma ColourOfNoHexDigit(d: string)
    requires forall i :: 0 <= i < |d| ==> !IsDigitIn(d[i], 16)
    ensures ColourOf("#" + d).None?
  {
    var s := "#" + d;
    forall i | 0 <= i < |s| ensures !IsDigitIn(s[i], 16) {
      if i > 0 {
        assert s[i] == d[i - 1];
      }
    }
    NoDigitSuffix(s, LStrip(s, IsHash));
  }

  /** A suffix of text without hexadecimal digits is no numeral for int(). */
  lemma NoDigitSuffix(s: string, r: string)
    requires forall i :: 0 <= i < |s| ==> !IsDigitIn(s[i], 16)
    requires |r| <= |s| && r == s[|s| - |r|..]
    ensures PyInt(r, 16).None?
  {
    assert forall i :: 0 <= i < |r| ==> r[i] == s[|s| - |r| + i];
    assert !HasDigitIn(r, 16);
  }

  lemma HashThenNumeral(d: string)
    requires |d| > 0 && IsDigitIn(d[0], 16)
    ensures LStrip("#" + d, IsHash) == d
  {
    assert ("#" + d)[1..] == d;
  }

  /** Colour names are matched ignoring case. */
  lemma ColourOfIgnoresCase(name: string)
    requires |name| == 0 || name[0] != '#'
    ensures ColourOf(Lower(name)) == ColourOf(name)
  {
    assert Lower(Lower(name)) == Lower(name);
  }

  // ---------------------------------------------------------------- claims

  /** The first failed check of a claim, in the order the form checks them. */
  datatype ClaimError = NotANumber | InvalidSlot | AlreadyTaken | AlreadyBooked

  /** The slot names user u has booked in guild g. */
  function Held(reqs: Requests, g: GuildId, u: UserId): set<string> {
    if g in reqs && u in reqs[g] then reqs[g][u] else {}
  }

  /** user_requests.setdefault(g, {}).setdefault(u, set()).add(key) */
  function AddHeld(reqs: Requests, g: GuildId, u: UserId, key: string): (r: Requests)
    ensures Held(r, g, u) == Held(reqs, g, u) + {key}
    ensures forall h, v: UserId :: (h, v) != (g, u) ==> Held(r, h, v) == Held(reqs, h, v)
  {
    var users := if g in reqs then reqs[g] else map[];
    reqs[g := users[u := Held(reqs, g, u) + {key}]]
  }

  /** The checks of the claim form, in order: the slot text must be digits, the slot
      must be on the board, it must be open, and the user must not already hold a
      slot of that name in the guild. The key is "Slot " + int(text). */
  function CheckClaim(board: Slots, held: set<string>, text: string): (r: Result<string, ClaimError>)
    ensures r == Err(NotANumber) <==> !IsDigits(text)
    ensures IsDigits(text) ==> var key := SlotName(DigitsValue(text, 10));
      && (r == Err(InvalidSlot) <==> key !in board)
      && (r == Err(AlreadyTaken) <==> key in board && board[key].Some?)
      && (r == Err(AlreadyBooked) <==> key in board && board[key].None? && key in held)
      && (r == Ok(key) <==> key in board && board[key].None? && key !in held)
    ensures r.Ok? ==> IsDigits(text) && r.value in board && board[r.value].None? && r.value !in held
  {
    if !IsDigits(text) then Err(NotANumber)
    else
      var key := SlotName(DigitsValue(text, 10));
      if key !in board then Err(InvalidSlot)
      else if board[key].Some? then Err(AlreadyTaken)
      else if key in held then Err(AlreadyBooked)
      else Ok(key)
  }

  /** "007" and "7" address the same slot. */
  lemma CheckClaimLeadingZeros(board: Slots, held: set<string>, text: string)
    requires IsDigits(text)
    ensures CheckClaim(board, held, "0" + text) == CheckClaim(board, held, text)
  {
    LeadingZero(text, 10);
    assert IsDigits("0" + text) by {
      assert forall i :: 1 <= i < |"0" + text| ==> ("0" + text)[i] == text[i - 1];
    }
  }

  /** A slot name a user holds in a guild blocks that name on every board of the
      guild, even where the slot is open. */
  lemma HeldBlocksEveryBoard(board: Slots, held: set<string>, text: string)
    requires IsDigits(text) && SlotName(DigitsValue(text, 10)) in held
    ensures CheckClaim(board, held, text).Err?
  {
  }

  /** The slots of a board that someone has booked. */
  function BookedSlots(board: Slots): set<string> {
    set k | k in board && board[k].Some?
  }

  /** Booking an open slot books exactly one more slot. */
  lemma BookOneMore(board: Slots, key: string, u: UserId)
    requires key in board && board[key].None?
    ensures BookedSlots(board[key := Some(u)]) == BookedSlots(board) + {key}
    ensures |BookedSlots(board[key := Some(u)])| == |BookedSlots(board)| + 1
  {
    assert BookedSlots(board[key := Some(u)]) == BookedSlots(board) + {key};
  }

  /** Every slot of the board is booked exactly when the booked count reaches the
      number of slots, which is what the board's footer shows. */
  lemma AllBookedByCount(board: Slots)
    ensures (forall k :: k in board ==> board[k].Some?) <==> |BookedSlots(board)| == |board|
  {
    var b := BookedSlots(board);
    assert b <= board.Keys;
    if |b| == |board| {
      if exists k :: k in board && board[k].None? {
        var k :| k in board && board[k].None?;
        SubsetCard(b, board.Keys - {k});
      }
    } else {
      assert b != board.Keys;
    }
  }

  // ---------------------------------------------------------------- rendering

  lemma SlotLinesSnoc(keys: seq<string>, i: nat, board: Slots)
    requires i < |keys| && forall j :: 0 <= j < |keys| ==> keys[j] in board
    ensures SlotLines(keys[..i + 1], board) == SlotLines(keys[..i], board) + [SlotLine(keys[i], board[keys[i]])]
  {
  }

  lemma BookedAmongSnoc(keys: seq<string>, i: nat, board: Slots)
    requires i < |keys| && StrictlySorted(keys) && keys[i] in board
    ensures keys[i] !in BookedAmong(keys[..i], board)
    ensures BookedAmong(keys[..i + 1], board)
      == BookedAmong(keys[..i], board) + (if board[keys[i]].Some? then {keys[i]} else {})
  {
    var k := keys[i];
    assert keys[..i + 1] == keys[..i] + [k];
    forall j | 0 <= j < i ensures keys[j] != k {
      LessIrreflexive(k);
    }
  }

  /** The names are exactly the board's slots. */
  ghost predicate ListsAll(keys: seq<string>, board: Slots) {
    forall k :: k in keys <==> k in board
  }

  /** One turn of the rendering loop: one more line, and one more booked slot when
      this one is booked. */
  lemma RenderStep(keys: seq<string>, i: nat, board: Slots, lines: seq<string>, booked: nat)
    requires i < |keys| && StrictlySorted(keys) && forall j :: 0 <= j < |keys| ==> keys[j] in board
    requires lines == SlotLines(keys[..i], board) && booked == |BookedAmong(keys[..i], board)|
    ensures lines + [SlotLine(keys[i], board[keys[i]])] == SlotLines(keys[..i + 1], board)
    ensures booked + (if board[keys[i]].Some? then 1 else 0) == |BookedAmong(keys[..i + 1], board)|
  {
    SlotLinesSnoc(keys, i, board);
    BookedAmongSnoc(keys, i, board);
  }

  /** The lines of a board for slot names in the given order. */
  function SlotLines(keys: seq<string>, board: Slots): (r: seq<string>)
    requires forall i :: 0 <= i < |keys| ==> keys[i] in board
    ensures |r| == |keys|
  {
    seq(|keys|, i requires 0 <= i < |keys| => SlotLine(keys[i], board[keys[i]]))
  }

  /** The description and footer shown after a claim: every slot once, in sorted
      order of names, and how many slots out of all are booked. */
  ghost predicate Rendered(board: Slots, description: string, footer: string, updater: string) {
    && footer == NatToString(|BookedSlots(board)|) + "/" + NatToString(|board|) + " booked | Updated by " + updater
    && exists keys ::
      && StrictlySorted(keys) && ListsAll(keys, board)
      && description == Join(SlotLines(keys, board), "\n")
  }

  lemma BookedAmongAll(keys: seq<string>, board: Slots)
    requires ListsAll(keys, board)
    ensures BookedAmong(keys, board) == BookedSlots(board)
  {
  }

  lemma RenderedBy(board: Slots, keys: seq<string>, lines: seq<string>, booked: nat, updater: string)
    requires StrictlySorted(keys) && ListsAll(keys, board)
    requires lines == SlotLines(keys, board) && booked == |BookedAmong(keys, board)|
    ensures Rendered(board, Join(lines, "\n"),
      NatToString(booked) + "/" + NatToString(|board|) + " booked | Updated by " + updater, updater)
  {
    BookedAmongAll(keys, board);
  }

  /** The booked slots among the given names. */
  function BookedAmong(keys: seq<string>, board: Slots): set<string> {
    set k | k in keys && k in board && board[k].Some?
  }

  /** The loop of on_submit that lists the slots in sorted order, and the count of
      booked slots for the footer. */
  method RenderBoard(board: Slots, updater: string) returns (keys: seq<string>, description: string, footer: string)
    ensures StrictlySorted(keys) && ListsAll(keys, board)
    ensures description == Join(SlotLines(keys, board), "\n")
    ensures Rendered(board, description, footer, updater)
  {
    keys := SortedKeys(board.Keys);
    assert forall j :: 0 <= j < |keys| ==> keys[j] in board;
    var lines: seq<string> := [];
    var booked: nat := 0;
    var i := 0;
    while i < |keys|
      invariant 0 <= i <= |keys|
      invariant lines == SlotLines(keys[..i], board)
      invariant booked == |BookedAmong(keys[..i], board)|
    {
      var k := keys[i];
      RenderStep(keys, i, board, lines, booked);
      lines := lines + [SlotLine(k, board[k])];
      if board[k].Some? {
        booked := booked + 1;
      }
      i := i + 1;
    }
    assert keys[..i] == keys;
    RenderedBy(board, keys, lines, booked, updater);
    description := Join(lines, "\n");
    footer := NatToString(booked) + "/" + NatToString(|board|) + " booked | Updated by " + updater;
  }

  // ---------------------------------------------------------------- the registry

  datatype CreateReply =
    | StaffOnly
    | InvalidRange
    | Crashed   // the colour fallback raises: no board is posted and no reply sent
    | Created(slots: nat, colour: int, description: string)

  datatype ButtonReply = Expired | AllTaken | OpenForm

  datatype ClaimReply =
    | Rejected(error: ClaimError)
    | Booked(slot: string, company: string, description: string, footer: string)

  /** No booked slot changes hands, and no board loses or gains slots. */
  predicate Kept(before: map<MessageId, Slots>, after: map<MessageId, Slots>) {
    forall m :: m in before ==>
      && m in after && after[m].Keys == before[m].Keys
      && forall k :: k in before[m] && before[m][k].Some? ==> after[m][k] == before[m][k]
  }

  /** No user's booked names shrink. */
  ghost predicate Grows(before: Requests, after: Requests) {
    forall g, u :: Held(before, g, u) <= Held(after, g, u)
  }

  /** Every booked slot is among its holder's booked names in the board's guild. */
  predicate Consistent(boards: map<MessageId, Slots>, guilds: map<MessageId, GuildId>, reqs: Requests) {
    forall m: MessageId, k: string :: m in boards && m in guilds && k in boards[m] && boards[m][k].Some? ==>
      k in Held(reqs, guilds[m], boards[m][k].value)
  }

  /** No user has booked the same slot name on two boards of one guild. */
  predicate OncePerGuild(boards: map<MessageId, Slots>, guilds: map<MessageId, GuildId>) {
    forall m1: MessageId, m2: MessageId, k: string ::
      && m1 in boards && m2 in boards && m1 in guilds && m2 in guilds
      && m1 != m2 && guilds[m1] == guilds[m2]
      && k in boards[m1] && k in boards[m2] && boards[m1][k].Some?
      ==> boards[m2][k] != boards[m1][k]
  }

  /** Whoever has booked a slot is refused that slot number on every board of the
      same guild, the slot's own board included. */
  lemma HolderRefused(boards: map<MessageId, Slots>, guilds: map<MessageId, GuildId>, reqs: Requests,
                      m: MessageId, other: MessageId, text: string)
    requires Consistent(boards, guilds, reqs)
    requires m in boards && m in guilds && other in boards && other in guilds && guilds[other] == guilds[m]
    requires IsDigits(text)
    requires var k := SlotName(DigitsValue(text, 10)); k in boards[m] && boards[m][k].Some?
    ensures var k := SlotName(DigitsValue(text, 10));
      CheckClaim(boards[other], Held(reqs, guilds[other], boards[m][k].value), text).Err?
  {
    var k := SlotName(DigitsValue(text, 10));
    assert k in Held(reqs, guilds[m], boards[m][k].value);
  }

  /** Booking an open slot that the user has not booked in the board's guild, and
      recording it for them there, keeps both invariants, changes no other booking
      and forgets no name. */
  lemma BookKeeps(boards: map<MessageId, Slots>, guilds: map<MessageId, GuildId>, reqs: Requests,
                  msg: MessageId, user: UserId, key: string)
    requires Consistent(boards, guilds, reqs) && OncePerGuild(boards, guilds)
    requires msg in boards && msg in guilds
    requires key in boards[msg] && boards[msg][key].None? && key !in Held(reqs, guilds[msg], user)
    ensures var after := boards[msg := boards[msg][key := Some(user)]];
      var reqs' := AddHeld(reqs, guilds[msg], user, key);
      && Consistent(after, guilds, reqs') && OncePerGuild(after, guilds)
      && Kept(boards, after) && Grows(reqs, reqs')
  {
    var g := guilds[msg];
    var after: map<MessageId, Slots> := boards[msg := boards[msg][key := Some(user)]];
    var reqs' := AddHeld(reqs, g, user, key);
    forall m: MessageId, k: string | m in after && m in guilds && k in after[m] && after[m][k].Some?
      ensures k in Held(reqs', guilds[m], after[m][k].value)
    {
      if m != msg || k != key {
        assert k in Held(reqs, guilds[m], boards[m][k].value);
      }
    }
    forall m1: MessageId, m2: MessageId, k: string |
      && m1 in after && m2 in after && m1 in guilds && m2 in guilds
      && m1 != m2 && guilds[m1] == guilds[m2]
      && k in after[m1] && k in after[m2] && after[m1][k].Some?
      ensures after[m2][k] != after[m1][k]
    {
      if m1 == msg && k == key {
        assert key !in Held(reqs, guilds[m2], user);
      } else if m2 == msg && k == key {
        assert k in Held(reqs, g, boards[m1][k].value);
      }
    }
  }

  /** Posting a new board whose slots are all open keeps both invariants and
      changes no existing board. */
  lemma PostKeeps(boards: map<MessageId, Slots>, guilds: map<MessageId, GuildId>, reqs: Requests,
                  msg: MessageId, guild: GuildId, board: Slots)
    requires Consistent(boards, guilds, reqs) && OncePerGuild(boards, guilds)
    requires msg !in boards && msg !in guilds
    requires forall k :: k in board ==> board[k].None?
    ensures Consistent(boards[msg := board], guilds[msg := guild], reqs)
    ensures OncePerGuild(boards[msg := board], guilds[msg := guild])
    ensures Kept(boards, boards[msg := board])
  {
    var b: map<MessageId, Slots> := boards[msg := board];
    var gs: map<MessageId, GuildId> := guilds[msg := guild];
    forall m: MessageId, k: string | m in b && m in gs && k in b[m] && b[m][k].Some?
      ensures k in Held(reqs, gs[m], b[m][k].value)
    {
      assert m != msg;
    }
  }

  class Registry {
    /** booking_messages: each board's slots by message id */
    var boards: map<MessageId, Slots>
    /** The guild each board was posted in, which its button interactions carry. */
    var guilds: map<MessageId, GuildId>
    /** user_requests */
    var requests: Requests

    /** Every board has a guild; every booked slot is among its holder's booked
        names in that guild; no user holds one slot name twice in a guild. */
    predicate Valid()
      reads this
    {
      boards.Keys == guilds.Keys && Consistent(boards, guilds, requests) && OncePerGuild(boards, guilds)
    }

    constructor()
      ensures boards == map[] && guilds == map[] && requests == map[]
      ensures Valid()
    {
      boards := map[];
      guilds := map[];
      requests := map[];
    }

    /** /create in `guild`: staff only; the range must parse; the colour must not
        send int() to the fallback; the new board, posted as message msg, starts
        with every slot open. */
    method Create(roles: seq<RoleId>, guild: GuildId, msg: MessageId, slotRange: string, colour: string)
      returns (reply: CreateReply)
      requires Valid() && msg !in boards
      modifies this
      ensures Valid()
      ensures requests == old(requests)
      ensures reply == StaffOnly <==> !IsStaff(roles)
      ensures reply == InvalidRange <==> IsStaff(roles) && ParseRange(slotRange).None?
      ensures reply == Crashed <==>
        IsStaff(roles) && ParseRange(slotRange).Some? && ColourOf(colour).None?
      ensures !reply.Created? ==> boards == old(boards) && guilds == old(guilds)
      ensures reply.Created? ==>
        var (a, b) := ParseRange(slotRange).value;
        && boards == old(boards)[msg := OpenBoard(SlotNames(a, b))]
        && guilds == old(guilds)[msg := guild]
        && reply.slots == |SlotNames(a, b)| == |boards[msg]|
        && Some(reply.colour) == ColourOf(colour)
        && reply.description == Join(SlotLines(SlotNames(a, b), boards[msg]), "\n")
      ensures Kept(old(boards), boards) && Grows(old(requests), requests)
    {
      if !IsStaff(roles) {
        return StaffOnly;
      }
      var range := ParseRange(slotRange);
      if range.None? {
        return InvalidRange;
      }
      var col := ColourOf(colour);
      if col.None? {
        return Crashed;
      }
      var (a, b) := range.value;
      var names := SlotNames(a, b);
      var board := OpenBoard(names);
      OpenBoardSize(a, b);
      Post(msg, guild, board);
      reply := Created(|names|, col.value, Join(SlotLines(names, board), "\n"));
    }

    /** booking_messages[msg.id] = {"slots": board, ...}: a new board, all open,
        posted in `guild`. */
    method Post(msg: MessageId, guild: GuildId, board: Slots)
      requires Valid() && msg !in boards
      requires forall k :: k in board ==> board[k].None?
      modifies this
      ensures Valid()
      ensures boards == old(boards)[msg := board] && guilds == old(guilds)[msg := guild]
      ensures requests == old(requests)
      ensures Kept(old(boards), boards)
    {
      PostKeeps(boards, guilds, requests, msg, guild, board);
      boards := boards[msg := board];
      guilds := guilds[msg := guild];
    }

    /** The Book button: the board must still be known and have an open slot. */
    function BookButton(msg: MessageId): (r: ButtonReply)
      reads this
      ensures r == Expired <==> msg !in boards
      ensures r == AllTaken <==> msg in boards && |BookedSlots(boards[msg])| == |boards[msg]|
    {
      if msg !in boards then Expired
      else
        AllBookedByCount(boards[msg]);
        if forall k :: k in boards[msg] ==> boards[msg][k].Some? then AllTaken else OpenForm
    }

    /** The claim form submitted by `user` on board `msg`, in the board's guild,
        with the company name and the slot number typed as `text`. A failed check
        changes nothing; a claim books the open slot, records it for the user in
        the guild and shows the board again. */
    method Claim(msg: MessageId, user: UserId, company: string, text: string, updater: string)
      returns (reply: ClaimReply)
      requires Valid() && msg in boards
      modifies this
      ensures Valid()
      ensures guilds == old(guilds)
      ensures var c := CheckClaim(old(boards)[msg], Held(old(requests), guilds[msg], user), text);
        && (c.Err? ==> reply == Rejected(c.error) && boards == old(boards) && requests == old(requests))
        && (c.Ok? ==>
              && reply.Booked? && reply.slot == c.value && reply.company == company
              && boards == old(boards)[msg := old(boards)[msg][c.value := Some(user)]]
              && requests == AddHeld(old(requests), guilds[msg], user, c.value)
              && Rendered(boards[msg], reply.description, reply.footer, updater))
      ensures Kept(old(boards), boards) && Grows(old(requests), requests)
    {
      var board := boards[msg];
      if !IsDigits(text) {
        return Rejected(NotANumber);
      }
      var key := SlotName(DigitsValue(text, 10));
      if key !in board {
        return Rejected(InvalidSlot);
      }
      if board[key].Some? {
        return Rejected(AlreadyTaken);
      }
      var guild := guilds[msg];
      var held := Held(requests, guild, user);
      if key in held {
        return Rejected(AlreadyBooked);
      }
      Book(msg, user, key);
      var keys, description, footer := RenderBoard(boards[msg], updater);
      reply := Booked(key, company, description, footer);
    }

    /** slots[key] = user and user_set.add(key): the open slot is booked for the
        user, who has not booked that name in the board's guild, and recorded for
        them there. */
    method Book(msg: MessageId, user: UserId, key: string)
      requires Valid() && msg in boards
      requires key in boards[msg] && boards[msg][key].None? && key !in Held(requests, guilds[msg], user)
      modifies this
      ensures Valid()
      ensures boards == old(boards)[msg := old(boards)[msg][key := Some(user)]]
      ensures requests == AddHeld(old(requests), guilds[msg], user, key)
      ensures guilds == old(guilds)
      ensures Kept(old(boards), boards) && Grows(old(requests), requests)
    {
      BookKeeps(boards, guilds, requests, msg, user, key);
      requests := AddHeld(requests, guilds[msg], user, key);
      boards := boards[msg := boards[msg][key := Some(user)]];
    }
  }
}
