# LuckPerms migration, bulk-change, configuration and subject-storage core in Dafny

This project models the small, pure data transformations of LuckPerms that
work on permission nodes, and proves what they promise:

- **MigrationUtils** (`migration_utils.dfy`): reading a raw permission with a
  `-`/`!`/`+` sign, replacing a group's `weight.N` node, and standardising a
  foreign group name.
- **UserBulkChange** (`bulk_change.dfy`): the `bulkchange` user command as a
  function from (scope, from, to, node set) to (result, new node set, count),
  plus the loop the command runs, proved equal to it.
- **ConfigKeys** (`config_keys.dfy`): the derived configuration options
  (`server`, `use-server-uuids`, `temporary-add-behaviour`, the primary-group
  method and strategy, `group-weight`, the prefix/suffix meta stacks,
  `enable-ops`, the Vault server) as functions of a configuration map.
- **SubjectStorageModel** (`subject_storage.dfy`, over `json.dfy` and
  `ordering.dfy`): the JSON reader, `sortContextMap`, and `toJson` exactly
  as written. Writing parents is defective, so the project also has a
  corrected writer with its round trip proved.
- **MigrationBungeePerms** (`bungee_migration.dfy`): the rank-to-weight
  arithmetic in Java `int`, the translation of BungeePerms groups and users
  into node sets, and the command's effect on group and user storage.
- **SpongeMigrationUtils** (`sponge_migration.dfy`): `migrateSubject`, the
  translation of a Sponge subject into a holder's nodes, and
  `migrateSubjectData`, the copy of subject data as a sequence of calls.

Shared modules: `Wrappers` (Option), `Ascii` (ASCII lower-casing, trimming,
character replacement), `JavaInt` (32-bit wrap-around, `Integer.parseInt` on ASCII decimal digits),
`Nodes` (the node record and the node factory's encodings), `Ordering`
(stable insertion sort of association lists by key, total orders, the map a
list denotes).

Nodes are records `{permission, value, server, world, contexts, expiry}`.
A holder's nodes are modelled as a set, and `setPermission` is assumed to
be set union (`PermissionHolder` is not part of this model; see "## Left out"). The node
factory's builders are modelled by their raw node formats: `group.<g>`,
`weight.<N>`, `prefix.<N>.<text>`, `suffix.<N>.<text>`, `meta.<k>.<v>`.
Three foreign pieces are parameters with stated assumptions:

- The context-set JSON codec. The ghost predicate `ContextCodec` assumes
  decoding inverts encoding.
- The context-set comparator and the string comparator. The ghost predicate
  `TotalOrder` assumes each is a total order.
- Storage. It is a map from holder name (or UUID) to its node set.

## Model

Source paths are relative to the repository root.

| member | source | states |
|---|---|---|
| MigrationUtils.ParseNode | common/src/main/java/me/lucko/luckperms/common/commands/impl/migration/MigrationUtils.java:34-44 | the node is plain (global, permanent, no contexts); its permission differs from the input iff the input starts with `-`, `!` or `+`, and then exactly the first character is dropped; a sign fixes the value (`+` true, otherwise false) |
| MigrationUtils.ParseNodeSign | common/src/main/java/me/lucko/luckperms/common/commands/impl/migration/MigrationUtils.java:35-41 | `-r` and `!r` give `r` negated and `+r` gives `r` granted whatever value is passed, and only one sign is stripped (so `--x` gives `-x`) |
| MigrationUtils.ParseNodeUnsigned | common/src/main/java/me/lucko/luckperms/common/commands/impl/migration/MigrationUtils.java:34-43 | a permission without a sign passes through with the caller's value |
| MigrationUtils.ParseRawPermission | common/src/main/java/me/lucko/luckperms/common/commands/impl/migration/MigrationUtils.java:34-44 | reading back the raw form of (permission, value), with `-` for a negation, recovers that permission and value |
| MigrationUtils.SetGroupWeight | common/src/main/java/me/lucko/luckperms/common/commands/impl/migration/MigrationUtils.java:46-49 | afterwards the only node starting with `weight.` is `weight.<w>`, and every other node is present iff it was before |
| MigrationUtils.StandardizeName | common/src/main/java/me/lucko/luckperms/common/commands/impl/migration/MigrationUtils.java:51-53 | the name is the trimmed input character by character, with `:`, space and `.` turned into `-` and letters lower-cased; so it has no separator, no upper-case letter, no leading or trailing trimmable character |
| MigrationUtils.StandardizeNameIdempotent | common/src/main/java/me/lucko/luckperms/common/commands/impl/migration/MigrationUtils.java:52 | standardising a standardised name changes nothing |
| MigrationUtils.StandardizeNameExample | common/src/main/java/me/lucko/luckperms/common/commands/impl/migration/MigrationUtils.java:52 | ` Mod.Team:A ` standardises to `mod-team-a` |
| BulkChange.ParseScope | common/src/main/java/me/lucko/luckperms/common/commands/impl/user/UserBulkChange.java:56-69 | the scope is world iff the argument equals `world` ignoring case, server iff it equals `server` ignoring case, otherwise none |
| BulkChange.Rewrite | common/src/main/java/me/lucko/luckperms/common/commands/impl/user/UserBulkChange.java:86-102 | the copy sets the scoped field to the target and agrees with the node in every other field |
| BulkChange.Execute | common/src/main/java/me/lucko/luckperms/common/commands/impl/user/UserBulkChange.java:55-112 | unknown scope: FAILURE and nodes unchanged; otherwise SUCCESS, group nodes kept, unselected nodes kept, every selected node replaced by its rewrite, nothing else added; the count is the number of distinct rewrites, at most the number selected, and zero iff nothing was selected |
| BulkChange.CollectMoves | common/src/main/java/me/lucko/luckperms/common/commands/impl/user/UserBulkChange.java:71-104 | the pass over the snapshot collects exactly the selected nodes to remove and exactly their rewrites to add |
| BulkChange.ExecuteInPlace | common/src/main/java/me/lucko/luckperms/common/commands/impl/user/UserBulkChange.java:63-110 | the snapshot loop that collects removals and additions, then removes all and adds all, computes exactly `Execute` |
| BulkChange.RewrittenSizeBound | common/src/main/java/me/lucko/luckperms/common/commands/impl/user/UserBulkChange.java:110 | the rewrites of a set are no more numerous than it, and there are none iff the set is empty |
| BulkChange.CountIsNumberMoved | common/src/main/java/me/lucko/luckperms/common/commands/impl/user/UserBulkChange.java:96-110 | when `from` is not the absent-field name (`null`/`global`), the count equals the number of nodes moved |
| BulkChange.SameSourceAndTargetIsNoop | common/src/main/java/me/lucko/luckperms/common/commands/impl/user/UserBulkChange.java:63-107 | moving from a real name to the same name leaves the node set unchanged |
| BulkChange.MoveOne | common/src/main/java/me/lucko/luckperms/common/commands/impl/user/UserBulkChange.java:89-107 | a single node whose server reads as `from` ends up as that node with its server set to the target (cleared for `null`) |
| BulkChange.SentinelSourceIsNotNoop | common/src/main/java/me/lucko/luckperms/common/commands/impl/user/UserBulkChange.java:96-102 | moving from `global` to `global` gives a server-less node the server `global`, and moving from `null` to `null` clears server `null`: neither is a no-op |
| BulkChange.ExecuteIdempotent | common/src/main/java/me/lucko/luckperms/common/commands/impl/user/UserBulkChange.java:96-102 | when the target, as read back, differs from `from`, a second run changes nothing and reports 0 |
| BulkChange.ServerMoveExample | common/src/main/java/me/lucko/luckperms/common/commands/impl/user/UserBulkChange.java:89-110 | moving `a.b` from server `foo` to `baz` leaves `c.d` on `bar` untouched and reports 1 |
| ConfigKeys.Server | common/src/main/java/me/lucko/luckperms/common/config/ConfigKeys.java:60 | the server name is the configured `server` string up to case and of its length, lower-case, and `global` when unset |
| ConfigKeys.UseServerUuids | common/src/main/java/me/lucko/luckperms/common/config/ConfigKeys.java:68-71 | the option is off exactly when the deciding key holds boolean `false`: `use-server-uuids` when that key is present at all, otherwise the legacy `online-mode` |
| ConfigKeys.LegacyOnlineModeIgnored | common/src/main/java/me/lucko/luckperms/common/config/ConfigKeys.java:68-71 | once `use-server-uuids` is present, changing `online-mode` has no effect |
| ConfigKeys.TemporaryAddBehaviour | common/src/main/java/me/lucko/luckperms/common/config/ConfigKeys.java:72-79 | REPLACE iff the setting is `replace` ignoring case, ACCUMULATE iff `accumulate` ignoring case, DENY in every other case, including missing |
| ConfigKeys.TemporaryAddBehaviourIgnoresCase | common/src/main/java/me/lucko/luckperms/common/config/ConfigKeys.java:73-78 | two settings equal up to case give the same behaviour |
| ConfigKeys.PrimaryGroupCalculationMethod | common/src/main/java/me/lucko/luckperms/common/config/ConfigKeys.java:80-87 | the method is one of the three known names: the lower-cased setting if it is one of them, otherwise `stored` |
| ConfigKeys.PrimaryGroupCalculation | common/src/main/java/me/lucko/luckperms/common/config/ConfigKeys.java:88-98 | stored gives the stored holder and parents-by-weight its holder (both iff); the remaining method gives all-parents-by-weight |
| ConfigKeys.GroupWeights | common/src/main/java/me/lucko/luckperms/common/config/ConfigKeys.java:102-113 | the map exists iff no two group names coincide once lower-cased; its keys are the lower-cased names, each weight is the parsed value or 0 when it does not parse |
| ConfigKeys.GroupWeightReadsDecimal | common/src/main/java/me/lucko/luckperms/common/config/ConfigKeys.java:105-111 | a weight written as a decimal int is read back as that int |
| JavaInt.ParseIntToString | common/src/main/java/me/lucko/luckperms/common/config/ConfigKeys.java:107 | parsing the decimal form of any 32-bit int gives it back |
| ConfigKeys.MetaFormattingOptions | common/src/main/java/me/lucko/luckperms/common/config/ConfigKeys.java:114-135 | the format list is `["highest"]` when missing or empty, otherwise the configured list; each spacer is the configured string when one is set, and otherwise empty, one space and empty |
| ConfigKeys.OpsEnabled | common/src/main/java/me/lucko/luckperms/common/config/ConfigKeys.java:137-138 | ops are enabled iff the raw configuration neither sets `auto-op` to `true` nor sets `enable-ops` to `false` |
| ConfigKeys.VaultServer | common/src/main/java/me/lucko/luckperms/common/config/ConfigKeys.java:140-147 | always lower-case; unless `use-vault-server` is set to `false` it is `vault-server` up to case (exactly `global` when unset), otherwise the `server` option |
| ConfigKeys.EmptyConfigDefaults | common/src/main/java/me/lucko/luckperms/common/config/ConfigKeys.java:60-98 | an empty configuration gives server `global`, server UUIDs on, DENY, and the stored primary-group method and holder |
| ConfigKeys.EmptyConfigFormatting | common/src/main/java/me/lucko/luckperms/common/config/ConfigKeys.java:102-147 | an empty configuration gives no group weights, the `highest` meta stacks with default spacers, ops enabled, and Vault server `global` |
| SubjectStorage.FromJson | sponge/src/main/java/me/lucko/luckperms/sponge/service/storage/SubjectStorageModel.java:78-164 | construction fails when `permissions`, `options` or `parents` is not an array; on success every map has distinct context keys |
| SubjectStorage.RepeatedDataMemberFails | sponge/src/main/java/me/lucko/luckperms/sponge/service/storage/SubjectStorageModel.java:101-104 | on JSON trees that Gson cannot build (an object holding a member name twice), section data with a repeated name aborts the read; this pins the model's choice, since a Gson object never repeats a name |
| SubjectStorage.FailingSectionFails | sponge/src/main/java/me/lucko/luckperms/sponge/service/storage/SubjectStorageModel.java:88-107 | one section that aborts, wherever it stands, aborts the whole array |
| SubjectStorage.RepeatedContextRejected | sponge/src/main/java/me/lucko/luckperms/sponge/service/storage/SubjectStorageModel.java:106-108 | when two permission, option or parent sections decode to the same context set, construction fails |
| SubjectStorage.RepeatedMemberRejected | sponge/src/main/java/me/lucko/luckperms/sponge/service/storage/SubjectStorageModel.java:101-106 | on JSON trees that Gson cannot build, a permission or option section whose data object repeats a member name makes construction fail; this pins the model's choice for trees with no Java counterpart |
| SubjectStorage.SkippedElementIsIgnored | sponge/src/main/java/me/lucko/luckperms/sponge/service/storage/SubjectStorageModel.java:88-95 | an array element the reader skips (not an object, a non-object context, wrongly shaped data) does not affect the result |
| SubjectStorage.ReadSkippedSections | sponge/src/main/java/me/lucko/luckperms/sponge/service/storage/SubjectStorageModel.java:140-141 | sections whose data has the other section kind's shape are all skipped |
| SubjectStorage.ReadSectionsAppend | sponge/src/main/java/me/lucko/luckperms/sponge/service/storage/SubjectStorageModel.java:88-107 | reading two concatenated section arrays fails iff reading either fails, and otherwise gives the concatenated results |
| SubjectStorage.ReadWrittenPermissionData | sponge/src/main/java/me/lucko/luckperms/sponge/service/storage/SubjectStorageModel.java:98-104 | permission data written as JSON booleans reads back as the same entries |
| SubjectStorage.ReadWrittenOptionData | sponge/src/main/java/me/lucko/luckperms/sponge/service/storage/SubjectStorageModel.java:121-127 | option data written as JSON strings reads back as the same entries |
| SubjectStorage.ReadAsWrittenParentData | sponge/src/main/java/me/lucko/luckperms/sponge/service/storage/SubjectStorageModel.java:232-238 | parent data as written reads back with each reference's subject replaced by its collection |
| SubjectStorage.ReadWrittenParentData | sponge/src/main/java/me/lucko/luckperms/sponge/service/storage/SubjectStorageModel.java:148-159 | parent data written with the subject identifier reads back as the same references |
| Ordering.SortSorted | sponge/src/main/java/me/lucko/luckperms/sponge/service/storage/SubjectStorageModel.java:166-170 | the sort orders entries by key for any total order |
| Ordering.SortKeepsMap | sponge/src/main/java/me/lucko/luckperms/sponge/service/storage/SubjectStorageModel.java:166-170 | sorting a map's entries does not change the map they denote |
| SubjectStorage.SortContextMapKeeps | sponge/src/main/java/me/lucko/luckperms/sponge/service/storage/SubjectStorageModel.java:166-170 | `sortContextMap` keeps the context-to-map table and distinctness |
| SubjectStorage.EmitObjectTable | sponge/src/main/java/me/lucko/luckperms/sponge/service/storage/SubjectStorageModel.java:176-196 | the emitted sections denote exactly the non-empty part of the input table |
| SubjectStorage.EmitObjectOrder | sponge/src/main/java/me/lucko/luckperms/sponge/service/storage/SubjectStorageModel.java:176-179 | dropping empty sections keeps the section order |
| SubjectStorage.EmitObjectKeysSorted | sponge/src/main/java/me/lucko/luckperms/sponge/service/storage/SubjectStorageModel.java:186-192 | keys within every emitted section are in string-comparator order |
| SubjectStorage.PermissionSectionsWritten | sponge/src/main/java/me/lucko/luckperms/sponge/service/storage/SubjectStorageModel.java:175-197 | permission sections come in reversed context-comparator order, each non-empty, with keys sorted, and denote the non-empty part of the permission table |
| SubjectStorage.OptionSectionsWritten | sponge/src/main/java/me/lucko/luckperms/sponge/service/storage/SubjectStorageModel.java:199-221 | the same for option sections |
| SubjectStorage.ToJson | sponge/src/main/java/me/lucko/luckperms/sponge/service/storage/SubjectStorageModel.java:172-246 | the root is an object whose `permissions` array is no longer than the permission map, whose `options` array is no longer than the option and parent maps together, and whose `parents` is always the empty array |
| SubjectStorage.ReadAsWritten | sponge/src/main/java/me/lucko/luckperms/sponge/service/storage/SubjectStorageModel.java:172-243 | reading back `toJson(m)` gives the emitted permission and option sections and no parents: the parent sections placed in `options` are skipped because their data is an array |
| SubjectStorage.RoundTripAsWritten | sponge/src/main/java/me/lucko/luckperms/sponge/service/storage/SubjectStorageModel.java:172-243 | permissions and options round-trip exactly minus empty sections; parents come back empty |
| SubjectStorage.ParentsLost | sponge/src/main/java/me/lucko/luckperms/sponge/service/storage/SubjectStorageModel.java:223-243 | a model with a non-empty parent list loses every parent in the round trip |
| SubjectStorage.AsWrittenSubjectExample | sponge/src/main/java/me/lucko/luckperms/sponge/service/storage/SubjectStorageModel.java:233-237 | the reference `group/admin` is written and read back as `group/group` |
| SubjectStorage.ToJsonCorrected | sponge/src/main/java/me/lucko/luckperms/sponge/service/storage/SubjectStorageModel.java:223-243 | the corrected writer emits three arrays, and the parents array is no longer than the model's parent map |
| SubjectStorage.RoundTripCorrected | sponge/src/main/java/me/lucko/luckperms/sponge/service/storage/SubjectStorageModel.java:133-243 | with parents written to `parents` with the subject identifier, permissions, options and parents all round-trip minus empty sections |
| BungeeMigration.MaxRank | bungee/src/main/java/me/lucko/luckperms/bungee/migration/MigrationBungeePerms.java:70-73 | the largest rank and at least 0: an upper bound of every rank, attained by a group unless it is 0 |
| BungeeMigration.BaseWeight | bungee/src/main/java/me/lucko/luckperms/bungee/migration/MigrationBungeePerms.java:70-74 | the base is that maximum plus 5 when it fits in an int, and wraps to a negative value otherwise |
| BungeeMigration.GroupWeightBounds | bungee/src/main/java/me/lucko/luckperms/bungee/migration/MigrationBungeePerms.java:80 | without overflow, a group's weight is base minus rank and at least 5 |
| BungeeMigration.RankOrder | bungee/src/main/java/me/lucko/luckperms/bungee/migration/MigrationBungeePerms.java:80 | without overflow, a lower rank gives a strictly higher weight, and conversely |
| BungeeMigration.UserWeightAboveGroups | bungee/src/main/java/me/lucko/luckperms/bungee/migration/MigrationBungeePerms.java:150 | without overflow, user meta weight is the maximum rank plus 10, above a group's weight iff that group's rank exceeds -5 |
| BungeeMigration.WeightWrapExample | bungee/src/main/java/me/lucko/luckperms/bungee/migration/MigrationBungeePerms.java:70-80 | a group of rank `Integer.MIN_VALUE` gets the wrapped weight `MIN_VALUE + 5` |
| BungeeMigration.PermNodesFacts | bungee/src/main/java/me/lucko/luckperms/bungee/migration/MigrationBungeePerms.java:90-96 | each non-empty permission yields its parsed node in the given scope, and every node comes from one |
| BungeeMigration.EmptyPermissionIgnored | bungee/src/main/java/me/lucko/luckperms/bungee/migration/MigrationBungeePerms.java:91-93 | an empty permission string produces no node |
| BungeeMigration.WorldNodesFacts | bungee/src/main/java/me/lucko/luckperms/bungee/migration/MigrationBungeePerms.java:109-116 | per-world permissions get server = server key and world = world key |
| BungeeMigration.ServerNodesFacts | bungee/src/main/java/me/lucko/luckperms/bungee/migration/MigrationBungeePerms.java:99-118 | as written, per-server permissions get world = server key and no server; per-world ones get server and world keys; every non-empty permission yields its node |
| BungeeMigration.ParentNodesFacts | bungee/src/main/java/me/lucko/luckperms/bungee/migration/MigrationBungeePerms.java:121-127 | each non-empty inheritance becomes `group.<standardizeName(name)>`, and every node is such a membership |
| BungeeMigration.EmptyNameIgnored | bungee/src/main/java/me/lucko/luckperms/bungee/migration/MigrationBungeePerms.java:121-124 | an empty parent or group name produces no node |
| BungeeMigration.MetaNodesFacts | bungee/src/main/java/me/lucko/luckperms/bungee/migration/MigrationBungeePerms.java:130-138 | a prefix (suffix) node for text x at the given weight is present iff the prefix (suffix) is non-null, non-empty and equal to x; at most two nodes, never group or weight nodes |
| BungeeMigration.EmptyEntriesIgnored | bungee/src/main/java/me/lucko/luckperms/bungee/migration/MigrationBungeePerms.java:90-199 | empty permissions and empty inheritance or membership names change neither a group's nor a user's nodes |
| BungeeMigration.MigrateGroup | bungee/src/main/java/me/lucko/luckperms/bungee/migration/MigrationBungeePerms.java:87-138 | the group holds its weight node and every translated node, keeps every existing non-weight node, holds nothing that is not existing, translated or the new weight node, and no weight node other than the new one or a translated one |
| BungeeMigration.BothValuesKept | bungee/src/main/java/me/lucko/luckperms/bungee/migration/MigrationBungeePerms.java:90-96 | under the set-union assumption for `setPermission`, a group that grants `x` and denies `-x` ends up holding both the granted and the denied node |
| BungeeMigration.ApplyGroupsKeeps | bungee/src/main/java/me/lucko/luckperms/bungee/migration/MigrationBungeePerms.java:84-87 | group migration never loses a stored non-weight node |
| BungeeMigration.ApplyGroupsUntouched | bungee/src/main/java/me/lucko/luckperms/bungee/migration/MigrationBungeePerms.java:83-84 | a group no migrated group is named after is left exactly as stored |
| BungeeMigration.ApplyGroupsOnly | bungee/src/main/java/me/lucko/luckperms/bungee/migration/MigrationBungeePerms.java:79-142 | every node stored afterwards was stored before under that name, or is contributed by a step for that name, or is that step's weight node |
| BungeeMigration.ApplyGroupsLastWeight | bungee/src/main/java/me/lucko/luckperms/bungee/migration/MigrationBungeePerms.java:79-87 | for each name, the last step acting on it decides the weight: the group holds that step's weight node, and any other weight node it holds is one of that step's own nodes |
| BungeeMigration.MigrateGroupsAdds | bungee/src/main/java/me/lucko/luckperms/bungee/migration/MigrationBungeePerms.java:79-142 | after group migration every group's standardised name holds every non-weight node the group contributes at its weight, and nothing else is stored: every node under a name was stored there before or is a node or the weight node of a group with that standardised name |
| BungeeMigration.MigrateGroupsWeight | bungee/src/main/java/me/lucko/luckperms/bungee/migration/MigrationBungeePerms.java:79-87 | the BungeePerms group migrated last under a standardised name gives that LuckPerms group `weight.<base - rank>`, and any other weight node there is one of its own translated permissions |
| BungeeMigration.GroupNamesStored | bungee/src/main/java/me/lucko/luckperms/bungee/migration/MigrationBungeePerms.java:83-84 | group migration stores exactly the groups already stored plus one per standardised name |
| BungeeMigration.MigrateUsersNodes | bungee/src/main/java/me/lucko/luckperms/bungee/migration/MigrationBungeePerms.java:152-217 | every user with a UUID holds every node it contributes, with prefix and suffix at base + 5, stored nodes are kept, and nothing else is stored: every node under a key was stored there before or comes from a user with that UUID |
| BungeeMigration.ApplyUsersOnly | bungee/src/main/java/me/lucko/luckperms/bungee/migration/MigrationBungeePerms.java:152-214 | user migration adds nothing but the nodes of steps with the key's UUID |
| BungeeMigration.UserWithoutUuidSkipped | bungee/src/main/java/me/lucko/luckperms/bungee/migration/MigrationBungeePerms.java:153-156 | a user without a UUID changes neither storage nor the count |
| BungeeMigration.UserKeysStored | bungee/src/main/java/me/lucko/luckperms/bungee/migration/MigrationBungeePerms.java:153-160 | user migration stores the users already stored plus every user with a UUID |
| BungeeMigration.UserCount | bungee/src/main/java/me/lucko/luckperms/bungee/migration/MigrationBungeePerms.java:216 | the user count is the number of users with a UUID |
| BungeeMigration.Execute | bungee/src/main/java/me/lucko/luckperms/bungee/migration/MigrationBungeePerms.java:60-221 | STATE_ERROR iff BungeePerms is not loaded, and then nothing changes; otherwise every group counted, groups and users stored as above, and users counted iff they have a UUID |
| SpongeMigration.PermissionNodesFacts | sponge/src/main/java/me/lucko/luckperms/sponge/migration/SpongeMigrationUtils.java:57-63 | each non-empty permission becomes one node with the entry's value and the section's contexts; every node comes from such an entry |
| SpongeMigration.OptionNodesFacts | sponge/src/main/java/me/lucko/luckperms/sponge/migration/SpongeMigrationUtils.java:71-83 | each option with non-empty key and value yields its node; every option node is granted, never a group or weight node, and carries a section's contexts |
| SpongeMigration.OptionKeyIgnoresCase | sponge/src/main/java/me/lucko/luckperms/sponge/migration/SpongeMigrationUtils.java:76-79 | `prefix` and `suffix` keys give the same node in any letter case |
| SpongeMigration.ParentNodesFacts | sponge/src/main/java/me/lucko/luckperms/sponge/migration/SpongeMigrationUtils.java:91-97 | each group-collection parent becomes membership of its standardised group in the section's contexts; every node is a granted membership of a standardised name |
| SpongeMigration.OtherCollectionDropped | sponge/src/main/java/me/lucko/luckperms/sponge/migration/SpongeMigrationUtils.java:92-94 | a parent from any other collection contributes nothing |
| SpongeMigration.Prepared | sponge/src/main/java/me/lucko/luckperms/sponge/migration/SpongeMigrationUtils.java:48-50 | a group's only weight node becomes `weight.<priority>` and its other nodes stay; a user's nodes are untouched |
| SpongeMigration.MigrateSubject | sponge/src/main/java/me/lucko/luckperms/sponge/migration/SpongeMigrationUtils.java:47-98 | every translated node is added; existing non-weight nodes stay; a user keeps all its nodes; a group gets `weight.<priority>` and keeps no other weight node unless translated; nothing else appears |
| SpongeMigration.FromBoolean | sponge/src/main/java/me/lucko/luckperms/sponge/migration/SpongeMigrationUtils.java:104 | the tristate is never undefined, and is TRUE iff the boolean is |
| SpongeMigration.CallsFacts | sponge/src/main/java/me/lucko/luckperms/sponge/migration/SpongeMigrationUtils.java:102-106 | one call per entry: every entry's call is issued, and every call issued comes from an entry |
| SpongeMigration.MigrateSubjectData | sponge/src/main/java/me/lucko/luckperms/sponge/migration/SpongeMigrationUtils.java:101-119 | the number of calls is the total number of permission, option and parent entries |
| SpongeMigration.MigrateSubjectDataOrder | sponge/src/main/java/me/lucko/luckperms/sponge/migration/SpongeMigrationUtils.java:101-119 | the calls come in three runs: all `setPermission`, then all `setOption`, then all `addParent` |
| SpongeMigration.MigrateSubjectDataCopies | sponge/src/main/java/me/lucko/luckperms/sponge/migration/SpongeMigrationUtils.java:101-119 | every permission, option and parent entry is copied with its own context set, a permission with the tristate of its boolean; every call copies some entry |

## Left out

- `NodeFactory` internals: the model uses the raw node formats without character escaping, and `withExtraContext` is a union into the context set. Server and world keys are not hoisted out of the contexts.
- The context-set JSON codec and both comparators are parameters. Their round trip and total order are assumptions, stated as ghost predicates.
- Case mapping and trimming cover ASCII only. Java's full Unicode `toLowerCase` and `trim` on characters outside ASCII are not modelled.
- Storage, logging, progress messages, sender messages and `AtomicInteger` counters are left out. Counts are plain numbers. `createAndLoadGroup` and `loadUser` are modelled as reading a holder's node set from a map, empty when absent; the save, cleanup and `getInstance` calls are not modelled.
- `ConfigKeys.getAllKeys` is left out: it is reflection over fields. The keys that are plain default lookups, and the storage, redis and messaging keys, are left out too.
- The subject-storage copy constructor and `applyToData`: they hand maps to Sponge data objects, which are not part of this model.
- JSON numbers and Gson's number-to-string coercions: stored subjects never contain numbers in the shapes read here.
- A Gson accessor that throws (for example `getAsBoolean` on an object) and a missing `context` or `data` member are modelled as failure of the whole read.
- SubjectStorage.FromJson: the root is required to be a JSON object, as the Java constructor's parameter type demands.
- The target of `migrateSubjectData` is a sequence of calls. What the target subject data does with each call is Sponge's business and is not modelled.
- The BungeePerms plugin API is modelled as plain records. Its maps are association lists in iteration order.
- BungeeMigration.GroupWeightBounds: the lower bound of 5 is proved only when neither the base nor any group weight overflows a Java `int` (`GroupsNoOverflow`). BungeeMigration.WeightWrapExample shows what happens otherwise.
- BungeeMigration.RankOrder: proved under the same group no-overflow condition.
- BungeeMigration.UserWeightAboveGroups: proved only when the user weight does not overflow either (`NoOverflow`).
- JavaInt.ParseInt: digits are the ASCII `0`-`9` only. Java's `Integer.parseInt` also accepts other Unicode decimal digits through `Character.digit`; such a weight reads as `None` here, so `ConfigKeys.GroupWeights` gives it 0.
- ConfigKeys.MetaFormattingOptions: the elements are the raw format strings. `StackElementFactory.fromList`, which turns them into stack elements, is not part of this model.
- A configuration lookup of a path that holds a value of another type yields the lookup's default, as the configuration adapter does for a missing path. The adapter's own type coercions are not modelled.
- BulkChange.SameSourceAndTargetIsNoop: the node builder's `setServer` and `setWorld` are modelled as setting the field as given. Whether the builder turns server `global` back into no server is not visible here. As modelled, moving from the absent-field name (or `null`) to itself is not a no-op; BulkChange.SentinelSourceIsNotNoop states this.
- `Util.convertContexts` in the Sponge migration is taken as the identity: Sponge context sets are LuckPerms context sets in this model.
- JSON objects with a repeated member name: Gson's `JsonObject` cannot hold one and keeps the last value. The model's objects can, and the reader refuses repeated names in section data (SubjectStorage.RepeatedMemberRejected). Every object the writer builds has distinct names.
- The inheritance, priority and meta-stacking resolution engine is not part of this model.
- BungeeMigration.MigrateGroup: `setPermission` is modelled as set union. The holder's refusal of a node it already holds up to its value (`ALREADY_HAS`) is not modelled, because `PermissionHolder` is not part of this model. So `x` and `-x` both end up in the group here (`BothValuesKept`), where LuckPerms keeps only the first.
- SpongeMigration.MigrateSubject: the same set-union assumption; a translated node that equals an existing node except for its value is added here, where the holder would decline it.
- BulkChange.Execute: the same set-union assumption; a rewrite that equals a node left in place except for its value is added here, where the holder would decline it.

## Findings

| source | as written | input that shows it | evidently intended | confidence | as-written member | corrected member |
|---|---|---|---|---|---|---|
| sponge/src/main/java/me/lucko/luckperms/sponge/service/storage/SubjectStorageModel.java:236-241 | `toJson` writes each parent's `subject` from its collection, and adds parent sections to the `options` array; the `parents` array stays empty | a model whose parents map `{}` to `[group/admin]`: the JSON has `"parents": []`, and reading it back gives no parents (the stray section in `options` is skipped) | parent sections go into `parents` with `subject` set to the subject identifier, so parents round-trip like permissions and options | not executed | SubjectStorage.ParentsLost | SubjectStorage.RoundTripCorrected |
