/**
 * The ban commands of alexis/modules/bans.py: `ban`, `bans`, `setbans` and
 * `banrank`. Each handler is a function from the ban table and the invocation
 * to the new table and the reply. Replies are kept as structured values; the
 * Spanish wording is not reproduced except where it carries a decision (the
 * plural word).
 */
module Bans {
  import opened Wrappers
  import opened BanStore
  import Text
  import Registry

  /**
   * A chat member as the handlers see it. `tag` is `str(member)`; `isOwner`
   * is the answer of `cmd.is_owner(member)`, which stands for the ownership
   * test `Utils.IsOwner` models (the `Command` wrapper around it is not part
   * of this model); `canRead` is the member's `read_messages` permission in
   * the invoking channel.
   */
  datatype Member = Member(
    id: string,
    displayName: string,
    tag: string,
    isBot: bool,
    isOwner: bool,
    canRead: bool)

  /**
   * One command invocation: the arguments (`cmd.argc` is their number), the
   * argument text, the server, the author, whether the author is an owner
   * (`cmd.owner`) and the command name as typed (`cmd.cmdname`).
   */
  datatype Invocation = Invocation(
    args: seq<string>,
    text: string,
    server: string,
    author: Member,
    byOwner: bool,
    cmdname: string)

  /** User lookup by name, id or mention (`cmd.get_user`). */
  type Lookup = string -> Option<Member>

  // --------------------------------------------------------------- ban

  /** The early returns of `BanCmd.handle`, in the order they are tested. */
  datatype Guard =
    | NoArguments     // argc < 1: the usage text
    | UserNotFound
    | ProtectedOwner  // a non-owner targets an owner
    | BotItself
    | OtherBot
    | SelfBan         // the target is the last author
    | NotInChannel    // the target cannot read the channel
    | SavedByMiracle  // the coin flip spared the target

  function GuardIndex(g: Guard): nat {
    match g
    case NoArguments => 0
    case UserNotFound => 1
    case ProtectedOwner => 2
    case BotItself => 3
    case OtherBot => 4
    case SelfBan => 5
    case NotInChannel => 6
    case SavedByMiracle => 7
  }

  /**
   * Whether guard `g` holds. `target` is the looked-up member, `botId` the
   * bot's own user id, `lastAuthor` the id of the last message author, and
   * `miracle` says that `random.randint(0, 1)` returned 0.
   */
  predicate Fires(g: Guard, argc: nat, byOwner: bool, target: Option<Member>, botId: string,
                  lastAuthor: Option<string>, miracle: bool)
  {
    match g
    case NoArguments => argc < 1
    case UserNotFound => target.None?
    case ProtectedOwner => target.Some? && !byOwner && target.value.isOwner
    case BotItself => target.Some? && target.value.id == botId
    case OtherBot => target.Some? && target.value.isBot
    case SelfBan => target.Some? && lastAuthor == Some(target.value.id)
    case NotInChannel => target.Some? && !target.value.canRead
    case SavedByMiracle => miracle
  }

  /** The first guard that holds, if any: the early return `BanCmd.handle` takes. */
  function FirstGuard(argc: nat, byOwner: bool, target: Option<Member>, botId: string,
                      lastAuthor: Option<string>, miracle: bool): (r: Option<Guard>)
    ensures r.None? ==> forall g :: !Fires(g, argc, byOwner, target, botId, lastAuthor, miracle)
    ensures r.Some? ==> Fires(r.value, argc, byOwner, target, botId, lastAuthor, miracle)
    ensures r.Some? ==> forall g :: GuardIndex(g) < GuardIndex(r.value) ==>
                          !Fires(g, argc, byOwner, target, botId, lastAuthor, miracle)
  {
    if argc < 1 then Some(NoArguments)
    else if target.None? then Some(UserNotFound)
    else if !byOwner && target.value.isOwner then Some(ProtectedOwner)
    else if target.value.id == botId then Some(BotItself)
    else if target.value.isBot then Some(OtherBot)
    else if lastAuthor == Some(target.value.id) then Some(SelfBan)
    else if !target.value.canRead then Some(NotInChannel)
    else if miracle then Some(SavedByMiracle)
    else None
  }

  datatype BanReply =
    | Refused(guard: Guard)
    | FirstBan(name: string)            // a record was created for the target
    | Banned(name: string, total: int)  // the previous count plus one

  datatype Outcome<R> = Outcome(table: Table, reply: R)

  /**
   * What one ban of `m` on `server` does: the record's count goes up by one
   * (starting from 0 when there is none), no other count changes, and the
   * reply says the record is new, else gives the count after the ban. The
   * record's `user` becomes the member's tag, and every other row is kept.
   */
  predicate BanRecorded(t: Table, m: Member, server: string, r: Outcome<BanReply>) {
    var k := Key(m.id, server);
    && UniqueKeys(r.table)
    && Counts(r.table) == Counts(t)[k := CountOr0(t, k) + 1]
    && RowsWritten(t, r.table, k, m.tag)
    && !r.reply.Refused?
    && r.reply.name == m.displayName
    && (r.reply.FirstBan? <==> k !in Counts(t))
    && (r.reply.Banned? ==> k in Counts(t) && r.reply.total == Counts(t)[k] + 1)
  }

  /** The ban itself: `get_or_create` the target's record, then add one to it. */
  function Increment(t: Table, m: Member, server: string): (r: Outcome<BanReply>)
    requires UniqueKeys(t)
    ensures BanRecorded(t, m, server, r)
  {
    var w := Write(t, Key(m.id, server), AddOne, m.tag);
    Outcome(w.table, if w.created then FirstBan(m.displayName) else Banned(m.displayName, w.prior + 1))
  }

  /**
   * `BanCmd.handle`. `target` is what `cmd.get_user(cmd.text)` found for the
   * argument text.
   */
  function Ban(t: Table, inv: Invocation, target: Option<Member>, botId: string,
               lastAuthor: Option<string>, miracle: bool): (r: Outcome<BanReply>)
    requires UniqueKeys(t)
    ensures r.reply.Refused? <==>
      exists g :: Fires(g, |inv.args|, inv.byOwner, target, botId, lastAuthor, miracle)
    ensures r.reply.Refused? ==>
      Fires(r.reply.guard, |inv.args|, inv.byOwner, target, botId, lastAuthor, miracle)
    ensures r.reply.Refused? ==> forall g :: GuardIndex(g) < GuardIndex(r.reply.guard) ==>
      !Fires(g, |inv.args|, inv.byOwner, target, botId, lastAuthor, miracle)
    ensures r.reply.Refused? ==> r.table == t
    ensures !r.reply.Refused? ==> target.Some? && BanRecorded(t, target.value, inv.server, r)
  {
    match FirstGuard(|inv.args|, inv.byOwner, target, botId, lastAuthor, miracle)
    case Some(g) => Outcome(t, Refused(g))
    case None =>
      assert !Fires(UserNotFound, |inv.args|, inv.byOwner, target, botId, lastAuthor, miracle);
      Increment(t, target.value, inv.server)
  }

  // -------------------------------------------------------------- bans

  /** Who the `bans` answer is about. */
  datatype Subject = Yourself | Named(name: string)

  datatype BansReply =
    | BansUserNotFound
    | Undisclosed  // a non-owner asked about an owner
    | ZeroBans     // the `ZeroBansException` joke
    | Count(subject: Subject, bans: int, word: string)

  /** The noun after a non-zero count in the `bans` answer. */
  function BansWord(n: int): (w: string)
    requires n != 0
    ensures n == 1 ==> w == "ban"
    ensures n == 2 ==> w == "~~papás~~ bans"
    ensures n != 1 && n != 2 ==> w == "bans"
  {
    if n == 2 then "~~papás~~ bans" else if n == 1 then "ban" else "bans"
  }

  /** Whom `bans` asks about: the looked-up user with exactly one argument, otherwise the author. */
  function Asked(inv: Invocation, lookup: Lookup): (u: Option<Member>)
    ensures |inv.args| != 1 ==> u == Some(inv.author)
    ensures |inv.args| == 1 ==> u == lookup(inv.text)
  {
    if |inv.args| != 1 then Some(inv.author) else lookup(inv.text)
  }

  /**
   * `Bans.handle`. The record is fetched with `get_or_create`, so asking
   * about a member without one stores a record with count 0.
   */
  function BansQuery(t: Table, inv: Invocation, lookup: Lookup): (r: Outcome<BansReply>)
    requires UniqueKeys(t)
    ensures UniqueKeys(r.table)
    ensures Asked(inv, lookup).None? ==> r == Outcome(t, BansUserNotFound)
    ensures
      Asked(inv, lookup).Some? ==>
        var u := Asked(inv, lookup).value;
        var k := Key(u.id, inv.server);
        && (u.isOwner && !inv.byOwner ==> r == Outcome(t, Undisclosed))
        && (!(u.isOwner && !inv.byOwner) ==>
              && Counts(r.table) == Counts(t)[k := CountOr0(t, k)]
              && r.table == (if k in Counts(t) then t else t + [NewRow(k, u.tag)])
              && (CountOr0(t, k) == 0 <==> r.reply == ZeroBans)
              && (CountOr0(t, k) != 0 ==>
                    r.reply == Count(if u.id == inv.author.id then Yourself else Named(u.displayName),
                                     CountOr0(t, k), BansWord(CountOr0(t, k)))))
  {
    match Asked(inv, lookup)
    case None => Outcome(t, BansUserNotFound)
    case Some(u) =>
      if u.isOwner && !inv.byOwner then Outcome(t, Undisclosed)
      else
        var got := GetOrCreate(t, Key(u.id, inv.server), u.tag);
        var n := got.table[got.index].bans;
        var reply := if n == 0 then ZeroBans
                     else Count(if u.id == inv.author.id then Yourself else Named(u.displayName), n, BansWord(n));
        Outcome(got.table, reply)
  }

  // ----------------------------------------------------------- setbans

  datatype SetReply =
    | SetUsage
    | SetUserNotFound
    | Reset(name: string)                         // the count was set to 0
    | NowHas(name: string, bans: int, word: string)
    | SetRaised  // the count does not fit an SQLite INTEGER: the `UPDATE` raised and nothing was answered

  /**
   * The new count is stored for the target, and the reply reports it. A count
   * outside the 64-bit range makes the `UPDATE` raise after `get_or_create`
   * has run, so a missing record is still created with count 0.
   */
  function StoreCount(t: Table, m: Member, server: string, n: int): (r: Outcome<SetReply>)
    requires UniqueKeys(t)
    ensures UniqueKeys(r.table)
    ensures FitsInt64(n) ==> Counts(r.table) == Counts(t)[Key(m.id, server) := n]
    ensures FitsInt64(n) ==> RowsWritten(t, r.table, Key(m.id, server), m.tag)
    ensures FitsInt64(n) ==> (n == 0 <==> r.reply == Reset(m.displayName))
    ensures FitsInt64(n) && n != 0 ==> r.reply == NowHas(m.displayName, n, if n == 1 then "ban" else "bans")
    ensures !FitsInt64(n) ==> r.reply == SetRaised
    ensures !FitsInt64(n) ==> Counts(r.table) == Counts(t)[Key(m.id, server) := CountOr0(t, Key(m.id, server))]
    ensures !FitsInt64(n) ==>
      r.table == (if Key(m.id, server) in Counts(t) then t else t + [NewRow(Key(m.id, server), m.tag)])
  {
    var k := Key(m.id, server);
    if !FitsInt64(n) then Outcome(GetOrCreate(t, k, m.tag).table, SetRaised)
    else
      Outcome(Write(t, k, SetTo(n), m.tag).table,
              if n == 0 then Reset(m.displayName) else NowHas(m.displayName, n, if n == 1 then "ban" else "bans"))
  }

  /** The user `setbans` addresses: the arguments before the last, joined by spaces. */
  function SetTarget(args: seq<string>): (name: string)
    requires |args| >= 1
    ensures |args| == 1 ==> name == ""
    ensures |args| == 2 ==> name == args[0]
    ensures |args| >= 3 ==> name == args[0] + " " + SetTarget(args[1..])
  {
    var parts := args[..|args| - 1];
    assert |args| >= 3 ==> parts[1..] == args[1..][..|args| - 2];
    Text.Join(" ", parts)
  }

  /**
   * `SetBans.handle`. `asInt` is the integer reading of an argument (`is_int`
   * followed by `int`).
   */
  function SetBans(t: Table, inv: Invocation, lookup: Lookup, asInt: string -> Option<int>): (r: Outcome<SetReply>)
    requires UniqueKeys(t)
    ensures UniqueKeys(r.table)
    ensures |inv.args| < 2 || asInt(inv.args[|inv.args| - 1]).None? ==> r == Outcome(t, SetUsage)
    ensures |inv.args| >= 2 && asInt(inv.args[|inv.args| - 1]).Some? && lookup(SetTarget(inv.args)).None? ==>
      r == Outcome(t, SetUserNotFound)
    ensures |inv.args| >= 2 && asInt(inv.args[|inv.args| - 1]).Some? && lookup(SetTarget(inv.args)).Some? ==>
      var n := asInt(inv.args[|inv.args| - 1]).value;
      var m := lookup(SetTarget(inv.args)).value;
      && (FitsInt64(n) ==> Counts(r.table) == Counts(t)[Key(m.id, inv.server) := n])
      && (FitsInt64(n) ==> RowsWritten(t, r.table, Key(m.id, inv.server), m.tag))
      && (FitsInt64(n) ==> (n == 0 <==> r.reply == Reset(m.displayName)))
      && (FitsInt64(n) && n != 0 ==> r.reply == NowHas(m.displayName, n, if n == 1 then "ban" else "bans"))
      && (!FitsInt64(n) ==> r.reply == SetRaised)
      && (!FitsInt64(n) ==> Counts(r.table) == Counts(t)[Key(m.id, inv.server) := CountOr0(t, Key(m.id, inv.server))])
      && (!FitsInt64(n) ==>
            r.table == (if Key(m.id, inv.server) in Counts(t) then t else t + [NewRow(Key(m.id, inv.server), m.tag)]))
  {
    if |inv.args| < 2 || asInt(inv.args[|inv.args| - 1]).None? then Outcome(t, SetUsage)
    else
      match lookup(SetTarget(inv.args))
      case None => Outcome(t, SetUserNotFound)
      case Some(m) => StoreCount(t, m, inv.server, asInt(inv.args[|inv.args| - 1]).value)
  }

  // ----------------------------------------------------------- banrank

  /** One line of the ranking: `'{position}. {user}: {bans}'`. */
  datatype RankEntry = RankEntry(position: nat, user: string, bans: int)

  datatype RankReply = NoBans | Ranking(entries: seq<RankEntry>)

  /** The ranking size: 10 when invoked as prefix + `banrank` (the doubled-prefix alias), else 5. */
  function RankLimit(cmdname: string, prefix: string): (n: nat)
    ensures n == 5 || n == 10
    ensures n == 10 <==> cmdname == prefix + "banrank"
  {
    if cmdname == prefix + "banrank" then 10 else 5
  }

  function Min(a: int, b: int): int {
    if a <= b then a else b
  }

  /**
   * The listing loop: rows are numbered from 1 and the loop stops once
   * `limit` lines are written.
   */
  method NumberRows(rows: Table, limit: nat) returns (banlist: seq<RankEntry>)
    requires limit >= 1
    ensures |banlist| == Min(limit, |rows|)
    ensures forall j :: 0 <= j < |banlist| ==> banlist[j] == RankEntry(j + 1, rows[j].user, rows[j].bans)
  {
    banlist := [];
    var i := 1;
    var k := 0;
    while k < |rows|
      invariant 0 <= k <= |rows| && k < limit
      invariant i == k + 1
      invariant |banlist| == k
      invariant forall j :: 0 <= j < k ==> banlist[j] == RankEntry(j + 1, rows[j].user, rows[j].bans)
    {
      banlist := banlist + [RankEntry(i, rows[k].user, rows[k].bans)];
      i := i + 1;
      k := k + 1;
      if i > limit {
        break;
      }
    }
  }

  /** The server's records by descending count: `select().where(server).order_by(bans.desc())`. */
  function Ranked(t: Table, server: string): (r: Table)
    ensures |r| == |ServerRows(t, server)|
    ensures Descending(r)
    ensures multiset(r) == multiset(ServerRows(t, server))
  {
    SortDescending(ServerRows(t, server))
  }

  /**
   * `BanRank.handle`: the server's records by descending count, numbered
   * from 1, at most `RankLimit` of them; no records gives `NoBans`.
   */
  method BanRank(t: Table, inv: Invocation, config: map<string, Registry.Value>) returns (reply: RankReply)
    requires "command_prefix" in config && config["command_prefix"].VStr?
    ensures ServerRows(t, inv.server) == [] <==> reply == NoBans
    ensures reply.Ranking? ==>
      |reply.entries| == Min(RankLimit(inv.cmdname, config["command_prefix"].s), |ServerRows(t, inv.server)|)
    ensures reply.Ranking? ==> forall i :: 0 <= i < |reply.entries| ==>
              reply.entries[i].position == i + 1
              && reply.entries[i].user == Ranked(t, inv.server)[i].user
              && reply.entries[i].bans == Ranked(t, inv.server)[i].bans
    ensures reply.Ranking? ==> forall i, j :: 0 <= i < j < |reply.entries| ==>
              reply.entries[i].bans >= reply.entries[j].bans
  {
    var rows := Ranked(t, inv.server);
    var banlist := NumberRows(rows, RankLimit(inv.cmdname, Registry.CommandPrefix(config)));
    if |banlist| == 0 {
      reply := NoBans;
    } else {
      reply := Ranking(banlist);
    }
  }

  // ------------------------------------------------------ the commands together

  /** Two bans of a member without a record: the first creates it, the second reports 2. */
  lemma BanTwice(t: Table, m: Member, server: string)
    requires UniqueKeys(t)
    requires Key(m.id, server) !in Counts(t)
    ensures Increment(t, m, server).reply == FirstBan(m.displayName)
    ensures Increment(Increment(t, m, server).table, m, server).reply == Banned(m.displayName, 2)
  {
  }

  /**
   * After `setbans` stores `n`, a ban reports `n + 1`, also for `n == 0`: only a
   * missing record gives the first-ban reply, not a zero count.
   */
  lemma SetThenBan(t: Table, m: Member, server: string, n: int)
    requires UniqueKeys(t)
    ensures FitsInt64(n) ==> Increment(StoreCount(t, m, server, n).table, m, server).reply == Banned(m.displayName, n + 1)
    ensures !FitsInt64(n) ==> Increment(StoreCount(t, m, server, n).table, m, server).reply
                              == Banned(m.displayName, CountOr0(t, Key(m.id, server)) + 1)
  {
    var k := Key(m.id, server);
    var stored := StoreCount(t, m, server, n).table;
    var count := if FitsInt64(n) then n else CountOr0(t, k);
    assert Counts(stored) == Counts(t)[k := count];
    var banned := Increment(stored, m, server);
    assert k in Counts(stored) && Counts(stored)[k] == count;
    assert banned.reply.Banned? && banned.reply.total == count + 1;
  }

  /**
   * After `setbans` stores `n`, `bans` about the same member on that server
   * reports `n`; after an out-of-range `setbans` it reports the old count, or
   * the zero joke for a member who had no record.
   */
  lemma SetThenQuery(t: Table, m: Member, n: int, inv: Invocation, lookup: Lookup)
    requires UniqueKeys(t)
    requires Asked(inv, lookup) == Some(m)
    requires !(m.isOwner && !inv.byOwner)
    ensures var after := StoreCount(t, m, inv.server, n).table;
      var stored := if FitsInt64(n) then n else CountOr0(t, Key(m.id, inv.server));
      BansQuery(after, inv, lookup).reply ==
        if stored == 0 then ZeroBans
        else Count(if m.id == inv.author.id then Yourself else Named(m.displayName), stored, BansWord(stored))
  {
  }
}
