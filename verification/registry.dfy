/**
 * The bot shell of alexis.py: configuration defaulting, plugin registration
 * into the three lookup structures, and readiness-gated event delivery. The
 * bot's mutable fields become one immutable record and every step a function
 * from the old record to the new one.
 */
module Registry {
  import opened Wrappers

  /**
   * A YAML document value, restricted to what the core reads: null, booleans,
   * integers, strings, lists, and mappings with string keys. Floats,
   * timestamps and non-string mapping keys are not represented.
   */
  datatype Value =
    | VNull
    | VBool(b: bool)
    | VInt(i: int)
    | VStr(s: string)
    | VList(items: seq<Value>)
    | VMap(entries: map<string, Value>)

  /** Reading `config.yml`: the file could not be read or parsed, or it gave a document. */
  datatype ConfigSource = Unreadable | Loaded(doc: Value)

  /** A plugin's `swhandler` attribute: a string, a list of strings, or any other value. */
  datatype Swhandler = SwText(text: string) | SwList(texts: seq<string>) | SwOther

  /** A plugin's `mention_handler` attribute: a Python bool, or a value of another type. */
  datatype Flag = FlagBool(b: bool) | FlagOther

  /**
   * A plugin instance. `id` stands for the instance's identity; `hooks` is the
   * set of attribute names on it that are callable.
   */
  datatype Plugin = Plugin(
    id: nat,
    name: string,
    aliases: seq<string>,
    swhandler: Swhandler,
    mentionHandler: Flag,
    dbModels: seq<string>,
    hooks: set<string>)

  /** The state the `Alexis` object keeps. */
  datatype Bot = Bot(
    config: map<string, Value>,
    cmds: map<string, Plugin>,
    swhandlers: map<string, Plugin>,
    mentionHandlers: seq<Plugin>,
    dbModels: seq<string>,
    cmdInstances: seq<Plugin>,
    initialized: bool)

  /** The hard-coded default for `bot_owners`. */
  const DefaultBotOwner: string := "130324995984326656"

  /** The default for `command_prefix`. */
  const DefaultPrefix: string := "!"

  /** The bot as `Alexis.__init__` leaves it. */
  function NewBot(): (b: Bot)
    ensures !b.initialized && b.cmds == map[] && b.swhandlers == map[] && b.cmdInstances == []
    ensures b.config == map[] && b.dbModels == [] && b.mentionHandlers == []
  {
    Bot(map[], map[], map[], [], [], [], false)
  }

  // ---------------------------------------------------------------- config

  /** The keys `load_config` fills in. */
  const DefaultedKeys: set<string> := {"owners", "bot_owners", "command_prefix"}

  /** A configuration that needs no defaulting: owner lists present and a string prefix. */
  predicate Defaulted(m: map<string, Value>) {
    "owners" in m && "bot_owners" in m && "command_prefix" in m && m["command_prefix"].VStr?
  }

  /** The defaulting of `load_config` on a mapping document. */
  function WithDefaults(m: map<string, Value>): (r: map<string, Value>)
    ensures r.Keys == m.Keys + DefaultedKeys
    ensures Defaulted(r)
    ensures r["owners"] == if "owners" in m then m["owners"] else VList([])
    ensures r["bot_owners"] == if "bot_owners" in m then m["bot_owners"] else VList([VStr(DefaultBotOwner)])
    ensures "command_prefix" in m && m["command_prefix"].VStr? ==> r["command_prefix"] == m["command_prefix"]
    ensures !("command_prefix" in m && m["command_prefix"].VStr?) ==> r["command_prefix"] == VStr(DefaultPrefix)
    ensures forall k :: k in m && k !in DefaultedKeys ==> r[k] == m[k]
  {
    var owners := if "owners" in m then m["owners"] else VList([]);
    var botOwners := if "bot_owners" in m then m["bot_owners"] else VList([VStr(DefaultBotOwner)]);
    var prefix := if "command_prefix" !in m || !m["command_prefix"].VStr? then VStr(DefaultPrefix) else m["command_prefix"];
    m["owners" := owners]["bot_owners" := botOwners]["command_prefix" := prefix]
  }

  /** Defaulting an already defaulted configuration changes nothing. */
  lemma WithDefaultsIdempotent(m: map<string, Value>)
    ensures WithDefaults(WithDefaults(m)) == WithDefaults(m)
    ensures Defaulted(m) ==> WithDefaults(m) == m
  {
    var r := WithDefaults(m);
    assert WithDefaults(r).Keys == r.Keys;
    if Defaulted(m) {
      assert r.Keys == m.Keys;
    }
  }

  /**
   * `load_config`: a `None` document counts as the empty mapping; a mapping is
   * defaulted and stored; an unreadable file, or a document that is neither
   * `None` nor a mapping (its `.get` raises), leaves the bot as it was and
   * answers false.
   */
  function LoadConfig(b: Bot, src: ConfigSource): (r: (Bot, bool))
    ensures r.1 <==> src.Loaded? && (src.doc.VNull? || src.doc.VMap?)
    ensures !r.1 ==> r.0 == b
    ensures r.1 ==> Defaulted(r.0.config) && r.0 == b.(config := r.0.config)
    ensures r.1 && src.doc.VNull? ==> r.0.config.Keys == DefaultedKeys
    ensures r.1 && src.doc.VNull? ==> r.0.config == WithDefaults(map[])
    ensures r.1 && src.doc.VMap? ==> r.0.config == WithDefaults(src.doc.entries)
    ensures r.1 && src.doc.VMap? ==> forall k :: k in src.doc.entries && k !in DefaultedKeys ==>
              k in r.0.config && r.0.config[k] == src.doc.entries[k]
  {
    match src
    case Unreadable => (b, false)
    case Loaded(VNull) => (b.(config := WithDefaults(map[])), true)
    case Loaded(VMap(m)) => (b.(config := WithDefaults(m)), true)
    case Loaded(_) => (b, false)
  }

  /** `config['command_prefix']`, as the commands read it once a configuration is loaded. */
  function CommandPrefix(config: map<string, Value>): (px: string)
    requires "command_prefix" in config && config["command_prefix"].VStr?
    ensures VStr(px) == config["command_prefix"]
  {
    config["command_prefix"].s
  }

  /**
   * After a successful `load_config` the prefix can be read: it is the
   * document's prefix when that is a string, and `'!'` otherwise.
   */
  lemma PrefixAfterLoad(b: Bot, src: ConfigSource)
    requires LoadConfig(b, src).1
    ensures var c := LoadConfig(b, src).0.config;
      var given := src.doc.VMap? && "command_prefix" in src.doc.entries && src.doc.entries["command_prefix"].VStr?;
      && "command_prefix" in c && c["command_prefix"].VStr?
      && (given ==> CommandPrefix(c) == src.doc.entries["command_prefix"].s)
      && (!given ==> CommandPrefix(c) == DefaultPrefix)
  {
  }

  // ---------------------------------------------------------- registration

  /** The strings a plugin is known by: its name followed by its aliases. */
  function Names(p: Plugin): seq<string> {
    [p.name] + p.aliases
  }

  /** The starts-with triggers: a string is a one-element list; any other value gives none. */
  function Triggers(sw: Swhandler): (r: seq<string>)
    ensures sw.SwText? ==> r == [sw.text]
    ensures sw.SwList? ==> r == sw.texts
    ensures sw.SwOther? ==> r == []
  {
    match sw
    case SwText(t) => [t]
    case SwList(ts) => ts
    case SwOther => []
  }

  /** The non-empty strings of `keys`. */
  function NonEmpty(keys: seq<string>): set<string> {
    set k | k in keys && k != ""
  }

  /**
   * `after` is `before` with every non-empty string of `keys` bound to `p`:
   * those strings are added, the other entries are kept.
   */
  predicate IndexedUnder(before: map<string, Plugin>, after: map<string, Plugin>, keys: seq<string>, p: Plugin) {
    && after.Keys == before.Keys + NonEmpty(keys)
    && (forall k :: k in keys && k != "" ==> after[k] == p)
    && (forall k :: k in before && k !in NonEmpty(keys) ==> after[k] == before[k])
  }

  /** The loop `for key in keys: if key != '': m[key] = p`. */
  function IndexUnder(m: map<string, Plugin>, keys: seq<string>, p: Plugin): (r: map<string, Plugin>)
    ensures IndexedUnder(m, r, keys, p)
    decreases |keys|
  {
    if keys == [] then m
    else
      var m' := if keys[0] != "" then m[keys[0] := p] else m;
      assert NonEmpty(keys) == NonEmpty([keys[0]]) + NonEmpty(keys[1..]) by {
        assert keys == [keys[0]] + keys[1..];
      }
      IndexUnder(m', keys[1..], p)
  }

  /** Whether `load_command` appends the plugin to `mention_handlers`: only for the bool `True`. */
  predicate MentionsEnabled(p: Plugin) {
    p.mentionHandler == FlagBool(true)
  }

  /** `load_command` for an already constructed instance `p`. */
  function LoadCommand(b: Bot, p: Plugin): (r: Bot)
    ensures IndexedUnder(b.cmds, r.cmds, Names(p), p)
    ensures IndexedUnder(b.swhandlers, r.swhandlers, Triggers(p.swhandler), p)
    ensures MentionsEnabled(p) ==> r.mentionHandlers == b.mentionHandlers + [p]
    ensures !MentionsEnabled(p) ==> r.mentionHandlers == b.mentionHandlers
    ensures r.dbModels == b.dbModels + p.dbModels
    ensures r.config == b.config && r.cmdInstances == b.cmdInstances && r.initialized == b.initialized
  {
    b.(
      dbModels := b.dbModels + p.dbModels,
      cmds := IndexUnder(b.cmds, Names(p), p),
      swhandlers := IndexUnder(b.swhandlers, Triggers(p.swhandler), p),
      mentionHandlers := if p.mentionHandler.FlagBool? && p.mentionHandler.b then b.mentionHandlers + [p] else b.mentionHandlers)
  }

  /** Registering `q` after `p` makes every string they share resolve to `q`. */
  lemma LastRegistrationWins(b: Bot, p: Plugin, q: Plugin, k: string)
    requires k != ""
    requires k in Names(p) && k in Names(q)
    ensures LoadCommand(LoadCommand(b, p), q).cmds[k] == q
  {
  }

  /** The concatenation of the plugins' `db_models`, in order. */
  function AllModels(ps: seq<Plugin>): seq<string> {
    if ps == [] then [] else AllModels(ps[..|ps| - 1]) + ps[|ps| - 1].dbModels
  }

  /** The plugins whose `mention_handler` is `True`, in order. */
  function MentionPlugins(ps: seq<Plugin>): (r: seq<Plugin>)
    ensures forall p :: p in r <==> p in ps && MentionsEnabled(p)
  {
    if ps == [] then [] else MentionPlugins(ps[..|ps| - 1]) + (if MentionsEnabled(ps[|ps| - 1]) then [ps[|ps| - 1]] else [])
  }

  /** `load_command` applied to each plugin of `ps` in turn. */
  function LoadCommands(b: Bot, ps: seq<Plugin>): (r: Bot)
    ensures r.dbModels == b.dbModels + AllModels(ps)
    ensures r.mentionHandlers == b.mentionHandlers + MentionPlugins(ps)
    ensures r.config == b.config && r.cmdInstances == b.cmdInstances && r.initialized == b.initialized
    ensures "" !in b.cmds ==> "" !in r.cmds
    ensures "" !in b.swhandlers ==> "" !in r.swhandlers
  {
    if ps == [] then b
    else
      var init := ps[..|ps| - 1];
      var prev := LoadCommands(b, init);
      var last := ps[|ps| - 1];
      var added := if MentionsEnabled(last) then [last] else [];
      assert AllModels(ps) == AllModels(init) + last.dbModels;
      assert b.dbModels + (AllModels(init) + last.dbModels) == (b.dbModels + AllModels(init)) + last.dbModels;
      assert MentionPlugins(ps) == MentionPlugins(init) + added;
      assert b.mentionHandlers + (MentionPlugins(init) + added) == (b.mentionHandlers + MentionPlugins(init)) + added;
      LoadCommand(prev, last)
  }

  /** Some plugin of `ps` has `k` as its name or as an alias. */
  predicate Declared(ps: seq<Plugin>, k: string) {
    exists i :: 0 <= i < |ps| && k in Names(ps[i])
  }

  lemma DeclaredSnoc(ps: seq<Plugin>, k: string)
    requires ps != []
    ensures Declared(ps, k) <==> Declared(ps[..|ps| - 1], k) || k in Names(ps[|ps| - 1])
  {
    var init := ps[..|ps| - 1];
    if Declared(ps, k) {
      var i :| 0 <= i < |ps| && k in Names(ps[i]);
      if i < |ps| - 1 {
        assert init[i] == ps[i];
      }
    }
    if Declared(init, k) {
      var i :| 0 <= i < |init| && k in Names(init[i]);
      assert ps[i] == init[i];
    }
  }

  /** A non-empty string is a command key after loading `ps` exactly when it was one before or some plugin of `ps` declares it. */
  lemma {:induction false} CommandKeys(b: Bot, ps: seq<Plugin>, k: string)
    requires k != ""
    ensures k in LoadCommands(b, ps).cmds <==> k in b.cmds || Declared(ps, k)
  {
    if ps != [] {
      var init := ps[..|ps| - 1];
      var prev := LoadCommands(b, init);
      var last := ps[|ps| - 1];
      CommandKeys(b, init, k);
      DeclaredSnoc(ps, k);
      assert LoadCommands(b, ps) == LoadCommand(prev, last);
      assert k in LoadCommand(prev, last).cmds <==> k in prev.cmds || k in NonEmpty(Names(last));
    }
  }

  /** A string declared by `ps[i]` and by no later plugin resolves to `ps[i]`: the last registration wins. */
  lemma {:induction false} CommandsLastWins(b: Bot, ps: seq<Plugin>, i: int, k: string)
    requires k != ""
    requires 0 <= i < |ps| && k in Names(ps[i])
    requires forall j :: i < j < |ps| ==> k !in Names(ps[j])
    ensures k in LoadCommands(b, ps).cmds && LoadCommands(b, ps).cmds[k] == ps[i]
  {
    var init := ps[..|ps| - 1];
    var last := ps[|ps| - 1];
    if i < |ps| - 1 {
      assert k !in Names(last);
      assert init[i] == ps[i];
      CommandsLastWins(b, init, i, k);
    }
  }

  /** Some plugin of `ps` has `k` among its starts-with triggers. */
  predicate Triggered(ps: seq<Plugin>, k: string) {
    exists i :: 0 <= i < |ps| && k in Triggers(ps[i].swhandler)
  }

  lemma TriggeredSnoc(ps: seq<Plugin>, k: string)
    requires ps != []
    ensures Triggered(ps, k) <==> Triggered(ps[..|ps| - 1], k) || k in Triggers(ps[|ps| - 1].swhandler)
  {
    var init := ps[..|ps| - 1];
    if Triggered(ps, k) {
      var i :| 0 <= i < |ps| && k in Triggers(ps[i].swhandler);
      if i < |ps| - 1 {
        assert init[i] == ps[i];
      }
    }
    if Triggered(init, k) {
      var i :| 0 <= i < |init| && k in Triggers(init[i].swhandler);
      assert ps[i] == init[i];
    }
  }

  /** A non-empty string is a starts-with trigger after loading `ps` exactly when it was one before or some plugin of `ps` declares it. */
  lemma {:induction false} TriggerKeys(b: Bot, ps: seq<Plugin>, k: string)
    requires k != ""
    ensures k in LoadCommands(b, ps).swhandlers <==> k in b.swhandlers || Triggered(ps, k)
  {
    if ps != [] {
      var init := ps[..|ps| - 1];
      var prev := LoadCommands(b, init);
      var last := ps[|ps| - 1];
      TriggerKeys(b, init, k);
      TriggeredSnoc(ps, k);
      assert LoadCommands(b, ps) == LoadCommand(prev, last);
      assert k in LoadCommand(prev, last).swhandlers <==> k in prev.swhandlers || k in NonEmpty(Triggers(last.swhandler));
    }
  }

  /**
   * `init` without I/O: load the configuration, then load every plugin in
   * order, and keep the instances as `cmd_instances`.
   */
  function Init(src: ConfigSource, ps: seq<Plugin>): (b: Bot)
    ensures !b.initialized
    ensures b.cmdInstances == ps
    ensures b.dbModels == AllModels(ps)
    ensures b.mentionHandlers == MentionPlugins(ps)
    ensures "" !in b.cmds && "" !in b.swhandlers
    ensures b.config == LoadConfig(NewBot(), src).0.config
  {
    var (configured, _) := LoadConfig(NewBot(), src);
    LoadCommands(configured, ps).(cmdInstances := ps)
  }

  /**
   * After `init`, the commands and the starts-with triggers are exactly the
   * non-empty strings the plugins declare.
   */
  lemma InitCommands(src: ConfigSource, ps: seq<Plugin>, k: string)
    requires k != ""
    ensures k in Init(src, ps).cmds <==> Declared(ps, k)
    ensures k in Init(src, ps).swhandlers <==> Triggered(ps, k)
  {
    CommandKeys(LoadConfig(NewBot(), src).0, ps, k);
    TriggerKeys(LoadConfig(NewBot(), src).0, ps, k);
  }

  // -------------------------------------------------------------- delivery

  /** What one `_call_handlers` call does: whether it routes through the command dispatcher, and which instances' hooks it calls, in order. */
  datatype Delivery = Delivery(viaDispatcher: bool, hooked: seq<Plugin>)

  /** The instances of `ps`, in order, on which `name` is callable. */
  function HookedBy(ps: seq<Plugin>, name: string): (r: seq<Plugin>)
    ensures forall p :: p in r <==> p in ps && name in p.hooks
    ensures |r| <= |ps|
  {
    if ps == [] then []
    else (if name in ps[0].hooks then [ps[0]] else []) + HookedBy(ps[1..], name)
  }

  /** Hooks are called in `cmd_instances` order: filtering commutes with concatenation. */
  lemma {:induction false} HookedByAppend(a: seq<Plugin>, b: seq<Plugin>, name: string)
    ensures HookedBy(a + b, name) == HookedBy(a, name) + HookedBy(b, name)
  {
    if a == [] {
      assert a + b == b;
    } else {
      assert (a + b)[0] == a[0];
      assert (a + b)[1..] == a[1..] + b;
      HookedByAppend(a[1..], b, name);
    }
  }

  /** `_call_handlers(name)`: nothing before readiness; afterwards the dispatcher for `on_message`, then every instance with a callable `name`. */
  function CallHandlers(b: Bot, name: string): (d: Delivery)
    ensures !b.initialized ==> d == Delivery(false, [])
    ensures b.initialized ==> d.viaDispatcher == (name == "on_message")
    ensures b.initialized ==> forall p :: p in d.hooked <==> p in b.cmdInstances && name in p.hooks
    ensures b.initialized ==> d.hooked == HookedBy(b.cmdInstances, name)
  {
    if !b.initialized then Delivery(false, [])
    else Delivery(name == "on_message", HookedBy(b.cmdInstances, name))
  }

  /**
   * `on_ready`: the presence is set from `config['playing']`, then the
   * readiness flag is raised and the `on_ready` hooks run. Without a
   * `playing` key the lookup raises `KeyError` before the flag is raised, so
   * the bot is left as it was and nothing is delivered.
   */
  function OnReady(b: Bot): (r: (Bot, Delivery))
    ensures "playing" !in b.config ==> r.0 == b && r.1 == Delivery(false, [])
    ensures "playing" in b.config ==> r.0 == b.(initialized := true)
    ensures "playing" in b.config ==> !r.1.viaDispatcher && r.1.hooked == HookedBy(b.cmdInstances, "on_ready")
    ensures "playing" in b.config ==> forall p :: p in r.1.hooked <==> p in b.cmdInstances && "on_ready" in p.hooks
  {
    if "playing" !in b.config then (b, Delivery(false, []))
    else
      var ready := b.(initialized := true);
      (ready, CallHandlers(ready, "on_ready"))
  }

  /** Before `on_ready`, an initialised bot delivers no event to anyone. */
  lemma NothingBeforeReady(src: ConfigSource, ps: seq<Plugin>, name: string)
    ensures CallHandlers(Init(src, ps), name) == Delivery(false, [])
  {
  }

  /**
   * A configuration without `playing` keeps the bot deaf for good: after
   * `on_ready` (any number of times) no event reaches a plugin. With `playing`,
   * every event reaches exactly the plugins hooking it, in instance order.
   */
  lemma {:induction false} ReadinessNeedsPlaying(b: Bot, times: nat, name: string)
    requires !b.initialized
    ensures "playing" !in b.config ==> CallHandlers(ReadyRepeatedly(b, times), name) == Delivery(false, [])
    ensures "playing" in b.config && times > 0 ==>
      CallHandlers(ReadyRepeatedly(b, times), name) == Delivery(name == "on_message", HookedBy(b.cmdInstances, name))
    decreases times
  {
    if times > 0 {
      ReadinessNeedsPlaying(b, times - 1, name);
    }
  }

  /** The bot after `times` calls of `on_ready`. */
  function ReadyRepeatedly(b: Bot, times: nat): Bot
    decreases times
  {
    if times == 0 then b else OnReady(ReadyRepeatedly(b, times - 1)).0
  }

  // ---------------------------------------------------------- event shims

  /** The platform events `Alexis` forwards. */
  datatype Event =
    | Message | ReactionAdd | ReactionRemove | ReactionClear
    | MemberJoin | MemberRemove | MemberUpdate
    | MessageDelete | MessageEdit | ServerJoin | ServerRemove
    | MemberBan | MemberUnban | Typing

  /** The name of the `Alexis` method that receives the event, which is also the hook it should reach. */
  function HandlerName(e: Event): string {
    match e
    case Message => "on_message"
    case ReactionAdd => "on_reaction_add"
    case ReactionRemove => "on_reaction_remove"
    case ReactionClear => "on_reaction_clear"
    case MemberJoin => "on_member_join"
    case MemberRemove => "on_member_remove"
    case MemberUpdate => "on_member_update"
    case MessageDelete => "on_message_delete"
    case MessageEdit => "on_message_edit"
    case ServerJoin => "on_server_join"
    case ServerRemove => "on_server_remove"
    case MemberBan => "on_member_ban"
    case MemberUnban => "on_member_unban"
    case Typing => "on_typing"
  }

  /** The hook name each event method passes to `_call_handlers`, as the source is written. */
  function ForwardedHookAsWritten(e: Event): (name: string)
    ensures e != Typing ==> name == HandlerName(e)
    ensures e == Typing ==> name == HandlerName(ServerRemove)
  {
    if e == Typing then "on_server_remove" else HandlerName(e)
  }

  /** Delivering a platform event with the hook names as the source forwards them. */
  function DeliverAsWritten(b: Bot, e: Event): (d: Delivery)
    ensures !b.initialized ==> d == Delivery(false, [])
    ensures b.initialized ==> forall p :: p in d.hooked <==> p in b.cmdInstances && ForwardedHookAsWritten(e) in p.hooks
    ensures b.initialized ==> d.hooked == HookedBy(b.cmdInstances, ForwardedHookAsWritten(e))
    ensures b.initialized ==> (d.viaDispatcher <==> e == Message)
  {
    CallHandlers(b, ForwardedHookAsWritten(e))
  }

  /** `on_typing` forwards to the `on_server_remove` hooks, so a typing event is delivered as a server removal. */
  lemma TypingMisrouted(b: Bot)
    ensures DeliverAsWritten(b, Typing) == DeliverAsWritten(b, ServerRemove)
    ensures ForwardedHookAsWritten(Typing) != HandlerName(Typing)
  {
  }

  /** A ready bot whose only plugin hooks `on_typing`: as written the hook is never called; corrected, it is. */
  lemma TypingHookNeverCalled()
    ensures var p := Plugin(0, "typing", [], SwOther, FlagOther, [], {"on_typing"});
      var b := NewBot().(cmdInstances := [p], initialized := true);
      && DeliverAsWritten(b, Typing).hooked == []
      && Deliver(b, Typing).hooked == [p]
  {
    var p := Plugin(0, "typing", [], SwOther, FlagOther, [], {"on_typing"});
    var b := NewBot().(cmdInstances := [p], initialized := true);
    assert HookedBy(b.cmdInstances, "on_server_remove") == [];
    assert HookedBy(b.cmdInstances, "on_typing") == [p];
  }

  /** The event a hook name belongs to. */
  function EventOfHook(name: string): (r: Option<Event>)
    ensures r.Some? ==> HandlerName(r.value) == name
  {
    if name == "on_message" then Some(Message)
    else if name == "on_reaction_add" then Some(ReactionAdd)
    else if name == "on_reaction_remove" then Some(ReactionRemove)
    else if name == "on_reaction_clear" then Some(ReactionClear)
    else if name == "on_member_join" then Some(MemberJoin)
    else if name == "on_member_remove" then Some(MemberRemove)
    else if name == "on_member_update" then Some(MemberUpdate)
    else if name == "on_message_delete" then Some(MessageDelete)
    else if name == "on_message_edit" then Some(MessageEdit)
    else if name == "on_server_join" then Some(ServerJoin)
    else if name == "on_server_remove" then Some(ServerRemove)
    else if name == "on_member_ban" then Some(MemberBan)
    else if name == "on_member_unban" then Some(MemberUnban)
    else if name == "on_typing" then Some(Typing)
    else None
  }

  /** With every event forwarded to its own handler name, distinct events reach distinct hooks. */
  lemma ForwardingIsInjective(e: Event, f: Event)
    ensures EventOfHook(HandlerName(e)) == Some(e)
    ensures HandlerName(e) == HandlerName(f) ==> e == f
  {
  }

  /** Delivering a platform event, with the `on_typing` routing corrected. */
  function Deliver(b: Bot, e: Event): (d: Delivery)
    ensures !b.initialized ==> d == Delivery(false, [])
    ensures b.initialized ==> (d.viaDispatcher <==> e == Message)
    ensures b.initialized ==> forall p :: p in d.hooked <==> p in b.cmdInstances && HandlerName(e) in p.hooks
    ensures b.initialized ==> d.hooked == HookedBy(b.cmdInstances, HandlerName(e))
  {
    ForwardingIsInjective(e, Message);
    CallHandlers(b, HandlerName(e))
  }
}
