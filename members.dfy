/** The /vtc members command and its settings: the guild members holding the VTC
    role, ordered by display name ignoring case, one line each with a status emoji,
    in pages of 25 lines. */
module Members {
  import opened Wrappers
  import opened Text
  import opened Sorting
  import opened Seqs

  type RoleId = int

  const PageSize := 25

  // ---------------------------------------------------------------- settings

  /** VTC_ROLE_ID: int(os.getenv("VTC_ROLE_ID", "0")); None where the program
      stops with "VTC_ROLE_ID must be a number". */
  function RoleIdSetting(env: Option<string>): (r: Option<int>)
    ensures env.None? ==> r == Some(0)
  {
    PyIntOfIntToString(0);
    PyInt(if env.Some? then env.value else "0", 10)
  }

  /** The decimal text of any id gives that id back. */
  lemma RoleIdOfNumeral(n: int)
    ensures RoleIdSetting(Some(IntToString(n))) == Some(n)
  {
    PyIntOfIntToString(n);
  }

  /** A value without a single digit stops the program. */
  lemma RoleIdRejectsNoDigits(env: string)
    requires NoDigit(env)
    ensures RoleIdSetting(Some(env)).None?
  {
    PyIntNeedsDigit(env);
  }

  /** GUILD_ID: unset or empty leaves commands global; a value that int() rejects
      becomes None, which also syncs globally. */
  function GuildSetting(env: Option<string>): (r: Option<int>)
    ensures env.None? || env.value == "" ==> r.None?
  {
    if env.None? || env.value == "" then None else PyInt(env.value, 10)
  }

  /** `if GUILD_ID:` in on_ready: commands are synced to one guild only for a
      non-zero id. */
  predicate SyncsToGuild(setting: Option<int>) {
    setting.Some? && setting.value != 0
  }

  lemma GuildOfNumeral(n: int)
    ensures GuildSetting(Some(IntToString(n))) == Some(n)
    ensures SyncsToGuild(GuildSetting(Some(IntToString(n)))) <==> n != 0
  {
    var s := IntToString(n);
    assert s != "" by {
      assert |NatToString(if n < 0 then -n else n)| > 0;
    }
    PyIntOfIntToString(n);
  }

  // ---------------------------------------------------------------- members

  datatype Status = Online | Idle | Dnd | Offline | Invisible

  /** A guild member: display name, str(member), status and role ids. */
  datatype Member = Member(displayName: string, name: string, status: Status, roles: set<RoleId>)

  datatype Embed = Embed(title: string, description: string, footer: string)

  datatype Reply =
    | RoleNotFound          // "VTC role not found – check VTC_ROLE_ID"
    | NoMembers             // "No one has the VTC role yet"
    | Pages(embeds: seq<Embed>)

  /** [m for m in guild.members if role in m.roles], in the guild's order. */
  function WithRole(members: seq<Member>, role: RoleId): (r: seq<Member>)
    ensures |r| <= |members|
    ensures forall m :: m in r <==> m in members && role in m.roles
  {
    Filter(members, (m: Member) => role in m.roles)
  }

  /** m.display_name.lower() */
  function NameKey(m: Member): string {
    Lower(m.displayName)
  }

  function StatusEmoji(s: Status): string {
    match s
    case Online => "🟢"
    case Idle => "🟡"
    case Dnd => "🔴"
    case _ => "⚫"
  }

  /** Online, idle and do-not-disturb each have their own emoji; every other status
      shares the last one. */
  lemma EmojiTellsStatus(a: Status, b: Status)
    ensures StatusEmoji(a) == StatusEmoji(b) <==>
      a == b || (a in {Offline, Invisible} && b in {Offline, Invisible})
  {
  }

  /** One member's line; escape stands for discord.utils.escape_markdown. */
  function Line(m: Member, escape: string -> string): (r: string)
    ensures |r| >= |StatusEmoji(m.status)| + |m.name| + 2
    ensures r[..|StatusEmoji(m.status)|] == StatusEmoji(m.status)
    ensures r[|r| - |m.name| - 2..] == "(" + m.name + ")"
  {
    StatusEmoji(m.status) + " **" + escape(m.displayName) + "** (" + m.name + ")"
  }

  /** The loop that writes one line per member, in sorted order. */
  method MemberLines(sorted: seq<Member>, escape: string -> string) returns (lines: seq<string>)
    ensures |lines| == |sorted|
    ensures forall i :: 0 <= i < |lines| ==> lines[i] == Line(sorted[i], escape)
  {
    lines := MapEach(sorted, m => Line(m, escape));
  }

  // ---------------------------------------------------------------- pages

  function Min(a: int, b: int): int {
    if a < b then a else b
  }

  /** lines[0:25], lines[25:50], ...: the pages, each of at most 25 lines. */
  function Chunks(lines: seq<string>): (r: seq<seq<string>>)
    ensures r == [] <==> lines == []
    ensures forall k :: 0 <= k < |r| ==> 0 < |r[k]| <= PageSize
    decreases |lines|
  {
    if lines == [] then []
    else if |lines| <= PageSize then [lines]
    else [lines[..PageSize]] + Chunks(lines[PageSize..])
  }

  /** Putting the pages back together gives every line once, in order. */
  lemma {:induction false} ChunksFlatten(lines: seq<string>)
    ensures Flatten(Chunks(lines)) == lines
    decreases |lines|
  {
    if |lines| > PageSize {
      ChunksFlatten(lines[PageSize..]);
      assert lines == lines[..PageSize] + lines[PageSize..];
    } else if lines != [] {
      assert Flatten([lines]) == lines + Flatten([]);
    }
  }

  /** There are ceil(n / 25) pages; each holds 1 to 25 lines, and only the last can
      hold fewer than 25. */
  lemma {:induction false} ChunksShape(lines: seq<string>)
    ensures |Chunks(lines)| == (|lines| + PageSize - 1) / PageSize
    ensures forall k :: 0 <= k < |Chunks(lines)| ==> 0 < |Chunks(lines)[k]| <= PageSize
    ensures forall k :: 0 <= k < |Chunks(lines)| - 1 ==> |Chunks(lines)[k]| == PageSize
    decreases |lines|
  {
    if |lines| > PageSize {
      ChunksShape(lines[PageSize..]);
    }
  }

  /** One step of the stride-25 loop. */
  lemma ChunksStep(lines: seq<string>, i: nat)
    requires i < |lines|
    ensures Chunks(lines[i..]) == [lines[i..Min(i + PageSize, |lines|)]] + Chunks(lines[Min(i + PageSize, |lines|)..])
  {
    var rest := lines[i..];
    if |rest| > PageSize {
      assert rest[..PageSize] == lines[i..i + PageSize];
      assert rest[PageSize..] == lines[i + PageSize..];
    } else {
      assert rest == lines[i..|lines|];
      assert lines[Min(i + PageSize, |lines|)..] == [];
    }
  }

  function Title(page: nat): string {
    if page == 0 then "VTC Members" else "VTC Members (continued)"
  }

  function Footer(total: nat, requester: string): string {
    "Total: " + NatToString(total) + " • Requested by " + requester
  }

  /** The paging loop, `for i in range(0, len(lines), 25)`: one embed per page. */
  method Paginate(lines: seq<string>, total: nat, requester: string) returns (chunks: seq<seq<string>>, embeds: seq<Embed>)
    ensures chunks == Chunks(lines)
    ensures |embeds| == |chunks|
    ensures forall k :: 0 <= k < |chunks| ==>
      embeds[k] == Embed(Title(k), Join(chunks[k], "\n"), Footer(total, requester))
  {
    chunks := [];
    embeds := [];
    var i := 0;
    while i < |lines|
      invariant i == PageSize * |chunks|
      invariant Chunks(lines) == chunks + Chunks(lines[Min(i, |lines|)..])
      invariant |embeds| == |chunks|
      invariant forall k :: 0 <= k < |chunks| ==>
        embeds[k] == Embed(Title(k), Join(chunks[k], "\n"), Footer(total, requester))
    {
      var next := Min(i + PageSize, |lines|);
      var page := lines[i..next];
      ChunksStep(lines, i);
      assert Chunks(lines) == (chunks + [page]) + Chunks(lines[next..]);
      embeds := embeds + [Embed(if i == 0 then "VTC Members" else "VTC Members (continued)",
                                Join(page, "\n"), Footer(total, requester))];
      chunks := chunks + [page];
      i := i + PageSize;
    }
  }

  /** The whole command. */
  method ListMembers(roleId: RoleId, guildRoles: set<RoleId>, guildMembers: seq<Member>,
                     requester: string, escape: string -> string) returns (reply: Reply)
    ensures roleId !in guildRoles <==> reply == RoleNotFound
    ensures roleId in guildRoles ==> (WithRole(guildMembers, roleId) == [] <==> reply == NoMembers)
    ensures reply.Pages? ==>
      var listed := WithRole(guildMembers, roleId);
      var sorted := StableSort(listed, NameKey);
      && |reply.embeds| == |Chunks(seq(|sorted|, i requires 0 <= i < |sorted| => Line(sorted[i], escape)))|
      && forall k :: 0 <= k < |reply.embeds| ==>
           reply.embeds[k] == Embed(Title(k),
             Join(Chunks(seq(|sorted|, i requires 0 <= i < |sorted| => Line(sorted[i], escape)))[k], "\n"),
             Footer(|listed|, requester))
  {
    if roleId !in guildRoles {
      return RoleNotFound;
    }
    var listed := WithRole(guildMembers, roleId);
    if listed == [] {
      return NoMembers;
    }
    var sorted := StableSort(listed, NameKey);
    var lines := MemberLines(sorted, escape);
    assert lines == seq(|sorted|, i requires 0 <= i < |sorted| => Line(sorted[i], escape));
    var chunks, embeds := Paginate(lines, |listed|, requester);
    return Pages(embeds);
  }
}
