# Alexis bot core in Dafny

This project models the parts of the Alexis chat bot whose behaviour can be stated precisely. Each part is a set of pure functions over immutable values.

- **Fullwidth conversion** (`fullwidth.dfy`, module `Fullwidth`). The `fullwidth` command maps every character of a fixed ASCII set to its fullwidth form by adding 0xFEE0. Every other character is copied. `Revert` is the inverse map. It is proved to undo the conversion for every text that holds no fullwidth form already. A character in U+FF01..U+FF5E other than U+FF07 is copied by the conversion and then shifted back by `Revert`.
- **The bot shell** (`registry.dfy`, module `Registry`). The `Alexis` object becomes a `Bot` record, with these parts:
  - `load_config` defaulting of `owners`, `bot_owners` and `command_prefix`;
  - `load_command` registration into the command map, the starts-with trigger map and the mention list, plus `db_models` accumulation;
  - the readiness flag raised by `on_ready`;
  - `_call_handlers`, which delivers nothing before readiness. After readiness it routes `on_message` through the dispatcher and calls every instance with a callable hook of that name, in instance order;
  - the event shims that forward platform events to hook names.
- **Ban counters** (`ban_store.dfy` and `bans.dfy`, modules `BanStore` and `Bans`).
  - The `Ban` table is a sequence of rows in insertion order. Its map view `Counts` goes from (userid, server) to the count.
  - `get_or_create` and the keyed `UPDATE` are functions on that table.
  - The four commands are functions or methods from the table and the invocation to the new table and a structured reply: `ban`, `bans`, `setbans` and `banrank`.
- **Helpers** (`utils.dfy`, module `Utils`). `is_owner`, `get_server_role` and `unserialize_avail`.
- **Support** (`text.dfy`, `wrappers.dfy`). Python's `str.split` on one character and `str.join`, with the round trip between them, and an `Option` type.

Inputs from code that is not part of this model become parameters:
- `cmd.get_user` becomes a `Lookup` function. For `ban` it becomes the looked-up member itself.
- `is_int` followed by `int` becomes `asInt`.
- `cmd.is_owner(member)` becomes the member's `isOwner` field.
- The server's own `owner_roles` setting becomes an optional string argument, `None` when the server has none.
- The configuration values `is_owner` reads (`bot_owners`, `owner_role`) are passed in as optional values. A missing key is `None` where the source would raise `KeyError`.
- `banrank` receives the configuration itself and requires `command_prefix` to be a string, which every successful `load_config` guarantees.
- The coin flip `random.randint(0, 1)` becomes the boolean `miracle`.
- The last message author becomes `lastAuthor`.
- Reading `config.yml` becomes a `ConfigSource` value.

## Model

| member | source | states |
|---|---|---|
| Fullwidth.SupportedIsPrintableNoQuote | commands/fullwidth.py:5 | The supported literal holds exactly the printable ASCII characters 0x21..0x7E except the apostrophe. |
| Fullwidth.ConvertChar | commands/fullwidth.py:13 | One character: a printable non-apostrophe character moves up by 0xFEE0 and lands in U+FF01..U+FF5E without U+FF07. Any other character comes back unchanged. |
| Fullwidth.Convert | commands/fullwidth.py:13 | The answer has the input's length, and position i is the conversion of input position i. |
| Fullwidth.ConvertPosition | commands/fullwidth.py:5-13 | A supported character becomes `chr(ord(c) + 0xFEE0)`. An unsupported one is copied, including space, the apostrophe and non-ASCII characters. A position changes iff its character is printable ASCII other than the apostrophe, and every changed position lies in the fullwidth image. |
| Fullwidth.ConvertIdempotent | commands/fullwidth.py:5-13 | Converting twice equals converting once. |
| Fullwidth.ConvertIsLocal | commands/fullwidth.py:13 | Conversion distributes over concatenation, so output position i depends only on input position i. |
| Fullwidth.RevertConvert | commands/fullwidth.py:13 | For text without fullwidth forms, shifting the fullwidth image back by 0xFEE0 recovers the input. |
| Text.Join | alexis/modules/bans.py:133 | `sep.join(parts)` for no parts and for one part only: no parts give `''`, and one part gives that part. Longer lists are characterised through `Bans.SetTarget` and `Text.JoinSplit`. |
| Text.Split | modules/base/utils.py:20 | `s.split(sep)` yields at least one piece, and no piece contains the separator. Text without the separator splits into itself. |
| Text.JoinSplit | modules/base/utils.py:20 | Joining the pieces of a split with the separator gives back the text. |
| Utils.OwnerRoleList | modules/base/utils.py:16-20 | The empty setting is the empty list. Any other setting is split on line breaks, and joining the list with line breaks gives the setting back. |
| Utils.AnyRoleGrants | modules/base/utils.py:22-28 | The role loop succeeds iff some role's id or name is listed, or the member id is listed and the member has at least one role. |
| Utils.IsOwner | modules/base/utils.py:7-28 | Without a `bot_owners` key the call raises. A member in `bot_owners` is an owner. Otherwise there is no ownership outside a server. In a server, a missing global `owner_role` raises even when the server has its own setting. Otherwise the member is an owner iff a role id or name is in the owner-role list (the server's setting, else the global one), or the member id is listed and the member has a role. |
| Utils.MemberIdNeedsARole | modules/base/utils.py:22-28 | A member listed only by id but without roles is not an owner. The id test sits inside the role loop. |
| Utils.EmptySettingGrantsNothing | modules/base/utils.py:16-28 | With an empty owner-role setting, ownership is exactly membership in `bot_owners`. |
| Utils.ServerSettingNeedsGlobalDefault | modules/base/utils.py:14-20 | A server's own setting replaces the global `owner_role`. Without the global key the lookup still raises for a non-bot-owner in a server. |
| Utils.GetServerRole | modules/base/utils.py:41-45 | The result is the first role in server order whose name or id equals the query. It is `None` iff no role matches. |
| Utils.UnserializeAvail | modules/base/utils.py:56-61 | The loop yields each value followed by its key, in mapping order. An empty mapping gives `''`. |
| Registry.NewBot | alexis.py:35-45 | A new bot is not initialised. Its configuration is empty, and it has no commands, triggers, instances, `db_models` or mention handlers. |
| Registry.WithDefaults | alexis.py:140-145 | Missing `owners` becomes `[]`, and missing `bot_owners` becomes the one hard-coded id. A missing or non-string `command_prefix` becomes `'!'`, a string one is kept. All other keys are kept. |
| Registry.WithDefaultsIdempotent | alexis.py:140-145 | Defaulting twice equals defaulting once, and an already complete configuration is unchanged. |
| Registry.LoadConfig | alexis.py:133-151 | Success iff the document is `None` or a mapping. The stored configuration is the defaulted document, with `None` read as the empty mapping, and nothing else in the bot changes. On failure the bot is unchanged. |
| Registry.CommandPrefix | alexis/modules/bans.py:166 | `config['command_prefix']` is read where it is a string. |
| Registry.PrefixAfterLoad | alexis.py:144-145 | After a successful load the prefix can always be read. It is the document's prefix if that is a string, else `'!'`. |
| Registry.Triggers | alexis.py:89-90 | A string `swhandler` is a one-element list, and a list is itself. Any other value gives no triggers. |
| Registry.IndexUnder | alexis.py:84-86 | Every non-empty key maps to the instance. Every other entry is kept, including an existing `''` entry, since `''` is skipped. No other key is added. |
| Registry.LoadCommand | alexis.py:79-98 | Names, aliases and triggers are indexed as above, and `db_models` is extended. The instance joins the mention list iff `mention_handler` is the bool `True`. Configuration, instances and readiness are untouched. |
| Registry.LastRegistrationWins | alexis.py:84-86 | A name registered by two instances resolves to the later one. |
| Registry.MentionPlugins | alexis.py:97-98 | The mention list holds exactly the instances whose flag is `True`. |
| Registry.LoadCommands | alexis.py:64 | Loading in order accumulates `db_models` and the mention list in order, and leaves the configuration, the instances and readiness alone. The empty string never becomes a command key or a trigger by loading. |
| Registry.TriggerKeys | alexis.py:89-94 | After loading, a non-empty string is a starts-with trigger iff it was one already or some instance declares it. |
| Registry.CommandKeys | alexis.py:84-86 | After loading, a non-empty string is a command key iff it was one already or some instance declares it. |
| Registry.CommandsLastWins | alexis.py:84-86 | A string declared by an instance and by no later one resolves to that instance. |
| Registry.Init | alexis.py:56-64 | After `init`, the bot is not ready. Its configuration is what `load_config` stores, and it holds the instances in order, their `db_models` and the mention list. The empty string is neither a command key nor a trigger. |
| Registry.InitCommands | alexis.py:57-64 | After `init`, a non-empty string is a command iff some plugin declares it as name or alias. It is a starts-with trigger iff some plugin declares it in `swhandler`. |
| Registry.HookedBy | alexis.py:160 | The hooked instances are exactly those with a callable attribute of that name. |
| Registry.HookedByAppend | alexis.py:160 | Hooks are called in `cmd_instances` order. |
| Registry.CallHandlers | alexis.py:153-160 | Before readiness nothing is delivered. Afterwards the dispatcher runs iff the hook is `on_message`. The instances with that callable hook are called exactly once each, in `cmd_instances` order. |
| Registry.OnReady | alexis.py:113-121 | Without a `playing` key, `on_ready` raises before the flag is set: the bot is unchanged and nothing is delivered. Otherwise it sets the readiness flag and then runs the `on_ready` hooks in instance order. |
| Registry.ReadinessNeedsPlaying | alexis.py:116-121 | Without `playing`, no number of `on_ready` calls makes any event reach a plugin. With it, after one call each event reaches exactly its hooks, in order. |
| Registry.NothingBeforeReady | alexis.py:153-155 | A freshly initialised bot delivers no event to anyone. |
| Registry.ForwardedHookAsWritten | alexis.py:166-206 | Every shim forwards its event to the hook of its own handler name, except `on_typing`, which forwards to the `on_server_remove` hook. |
| Registry.DeliverAsWritten | alexis.py:166-206 | Event delivery with the hook names as the shims pass them. Nothing is delivered before readiness. Afterwards only a message goes through the dispatcher, and the instances hooking the forwarded name are called in instance order. |
| Registry.TypingMisrouted | alexis.py:205-206 | A typing event is delivered exactly like a server removal. |
| Registry.TypingHookNeverCalled | alexis.py:205-206 | On a ready bot whose plugin hooks only `on_typing`, the written routing calls nobody. The corrected routing calls the plugin. |
| Registry.EventOfHook | alexis.py:166-206 | A hook name maps back to the event whose handler carries that name. |
| Registry.ForwardingIsInjective | alexis.py:166-206 | Each event's own handler name identifies it, so distinct events reach distinct hooks. |
| Registry.Deliver | alexis.py:166-206 | Corrected delivery: nothing before readiness. Afterwards the dispatcher runs only for messages, and exactly the instances hooking the event's own name are called. |
| BanStore.Find | alexis/modules/bans.py:61-62 | The lookup finds a row with the key, and finds none iff no row has it. |
| BanStore.CountsKeys | alexis/modules/bans.py:184-188 | The map view's keys are exactly the (userid, server) pairs that have a row. |
| BanStore.CountsOfUnique | alexis/modules/bans.py:184-188 | With unique keys, the map view gives every row its own count. |
| BanStore.CountsFind | alexis/modules/bans.py:61-62 | The lookup and the map view agree on presence and on the count. |
| BanStore.CountOr0 | alexis/modules/bans.py:98-101 | The count a command reads is the stored one, or 0 without a record. |
| BanStore.NewRow | alexis/modules/bans.py:184-189 | A created row has `bans = 0`, the requested key and the `user` default. |
| BanStore.GetOrCreate | alexis/modules/bans.py:61-62 | The row is created iff the key had none, and the table grows only then. The returned row has the key and the count read, and keys stay unique. The map view gains the key with count 0 or is unchanged. |
| BanStore.UpdateRow | alexis/modules/bans.py:63-64 | Only a row with the key gets the new count and `user`, and no row's key changes. |
| BanStore.Update | alexis/modules/bans.py:63-65 | The `UPDATE` keeps the table's length and applies the row update at every position. |
| BanStore.UpdateCounts | alexis/modules/bans.py:63-65 | On a present key, the `UPDATE` changes that key's count alone and keeps keys unique. |
| BanStore.UpdateCountsAnyTable | alexis/modules/bans.py:63-65 | The same for any table. An absent key leaves the map view unchanged. |
| BanStore.GetOrCreateThenUpdate | alexis/modules/bans.py:61-65 | `get_or_create` followed by `UPDATE` sets the key's count to the change applied to the old count, or to 0 without a record. All other counts stay. |
| BanStore.Write | alexis/modules/bans.py:61-65 | The writers' step reports whether the record was created and the count it read. The map view changes at that key alone. A row is appended only for a new key, and rows with other keys keep their place and contents. The record's `user` becomes the given tag. |
| BanStore.ServerRows | alexis/modules/bans.py:165 | The selection holds only rows of the server. |
| BanStore.ServerRowsContents | alexis/modules/bans.py:165 | A row is selected iff it is in the table and belongs to the server. |
| BanStore.Insert | alexis/modules/bans.py:165 | Inserting into a descending listing keeps it descending and adds exactly the new row. |
| BanStore.SortDescending | alexis/modules/bans.py:165 | `order_by(bans.desc())` yields a descending permutation of the rows. |
| Bans.FirstGuard | alexis/modules/bans.py:23-59 | The early return taken is a guard that holds, and no earlier guard holds. No early return means no guard holds. |
| Bans.Increment | alexis/modules/bans.py:61-71 | The target's count rises by exactly one, from 0 without a record. Its `user` becomes `str(member)`, and every other row is kept. The reply is the first-ban text iff no record existed, else the previous count plus one. |
| Bans.Ban | alexis/modules/bans.py:22-72 | The command is refused iff some guard holds. It then names the first holding guard in source order and leaves the table unchanged. Otherwise the ban is recorded as above. |
| Bans.BansWord | alexis/modules/bans.py:105-107 | 1 gives `ban`, 2 gives `~~papás~~ bans`, and any other non-zero count gives `bans`. |
| Bans.Asked | alexis/modules/bans.py:84-90 | `bans` asks about the author unless there is exactly one argument. With one argument it asks about the user looked up from the argument text. |
| Bans.BansQuery | alexis/modules/bans.py:83-116 | The user is the looked-up one with exactly one argument, else the author. An unknown user and a protected owner get their own replies with the table unchanged. Otherwise the record is fetched or created with count 0: an existing record leaves the table unchanged, and a missing one is appended with `user = str(user)`. Count 0 gives the exception joke, and any other count is reported with its word. |
| Bans.StoreCount | alexis/modules/bans.py:138-152 | For a 64-bit `n`, the count becomes exactly `n`, the `user` is refreshed and every other row is kept. `n == 0` gives the reset reply, else the new count with `ban`/`bans`. A larger `n` raises with no reply. The table is then the one after `get_or_create`: unchanged for an existing record, and one appended row with count 0 for a missing one. |
| Bans.SetTarget | alexis/modules/bans.py:133 | The user `setbans` looks up is every argument but the last, joined by single spaces. One argument gives `''`, two give the first, and each further argument adds a space and itself. |
| Bans.SetBans | alexis/modules/bans.py:128-152 | Fewer than two arguments or a non-integer last argument gives the usage reply with the table unchanged, and so does an unknown user. Otherwise the named user's count is set to the integer, or, past the 64-bit range, the call raises after `get_or_create` has left the table unchanged or appended a row with count 0. |
| Bans.RankLimit | alexis/modules/bans.py:159-168 | The ranking size is 10 iff the command was typed as prefix + `banrank`, else 5. |
| Bans.NumberRows | alexis/modules/bans.py:170-176 | The listing numbers rows from 1 in order and stops after `limit` lines. |
| Bans.Ranked | alexis/modules/bans.py:165 | The server's rows, descending by count, as a permutation of the selection. |
| Bans.BanRank | alexis/modules/bans.py:164-181 | The reply is `NoBans` iff the server has no records. Otherwise it holds min(limit, records) entries numbered from 1, following the descending order. The limit comes from the configured `command_prefix`. |
| Bans.BanTwice | alexis/modules/bans.py:61-71 | Two bans of a member without a record answer first-ban, then a total of 2. |
| Bans.SetThenBan | alexis/modules/bans.py:61-71 | After `setbans` stores n, a ban reports n + 1, also for n = 0. After an out-of-range `setbans` it reports the old count plus one, never the first-ban reply. |
| Bans.SetThenQuery | alexis/modules/bans.py:98-114 | After `setbans` stores n, `bans` about that member reports n, or the zero joke for 0. After an out-of-range `setbans` it reports the old count. |

## Left out

- Discord I/O is not modelled: sending messages, `change_presence`, `run`, embeds (`img_embed`) and the HTTP session. Replies are structured values rather than the Spanish texts, except where the text encodes a decision, such as the plural word.
- The peewee/SQLite engine, `db_connect` and `create_tables` are left out. The table is a sequence of rows whose (userid, server) pairs are unique, which is the invariant every writer keeps.
- The `lastban` timestamp (`datetime.now()`) is not modelled.
- `BanStore.SortDescending`: SQL leaves the order of equal counts unspecified. The model uses a stable insertion sort, and its contract states only "descending and a permutation".
- Randomness becomes an input: the `ban` coin flip is the `miracle` flag. `alexis/modules/ping.py` is a random reply and is not part of this model.
- The `Command` base class is not part of this model, nor is anything else whose source is not shown: the message dispatcher, `cmd.get_user`, `cmd.is_owner`, `is_int`, `ServerConfigMgr` and the user rate limit. Their results are parameters.
- Background `task` scheduling in `load_command`, logging, the `rx_mention` regex and the `isinstance(server, discord.Server)` check in `get_server_role` are not modelled.
- Registry.CallHandlers: `_call_handlers` calls each hook and never awaits the result. If a hook is a coroutine function, its body therefore does not run. The hook definitions are not part of this model, so the model records only which hooks are called. No hook error is isolated, because the code has no `try`/`except` there.
- Registry.Value: YAML floats, timestamps and non-string mapping keys are not represented. The core reads none of them.
- Bans.BanRank: `config['command_prefix']` is required to be a string. Every successful `load_config` guarantees that (Registry.PrefixAfterLoad).
- Registry.LoadCommand: a plugin whose `name` is a list, as `Fullwidth.name` is, would make the dict assignment raise in Python. The model takes names to be strings.
- Registry.LoadCommand: Python dicts remember insertion order. The model's maps do not, and nothing in the core reads that order.
- Bans.Increment: a count already at 2^63 - 1 is not modelled. There `bans + 1` makes SQLite store a REAL, and the model keeps integer counts.
- Bans.Increment: a record that exists with count 0 gets the counted reply ("1 baneos"), not the first-ban reply. The code decides by `created`, not by the count, and the model follows the code.

## Findings

| source | as written | input that shows it | evidently intended | confidence | as-written member | corrected member |
|---|---|---|---|---|---|---|
| alexis.py:205-206 | `on_typing` forwards to `_call_handlers('on_server_remove', ...)` | a ready bot whose only plugin defines `on_typing`: a typing event calls nobody, and plugins with `on_server_remove` get a call with typing arguments | `on_typing` forwards to the `on_typing` hooks, like every other shim | high; not executed | Registry.TypingMisrouted | Registry.Deliver |
