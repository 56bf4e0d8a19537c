# Magistrala: verified protocols, indexes and codecs

A Dafny model of the parts of Magistrala where correctness is not visible from one function: the
rules engine's value codec and topic matcher, alarm deduplication, refresh and personal access
tokens with their caches, the dual-write protocols of groups, connections, invitations and
bootstrap, report assembly, and username synthesis. `dafny verify dfyconfig.toml` checks it.

Databases, Redis, SpiceDB and remote services appear as maps and sets. A call takes flags (or a
count of successful writes) that say which of its store calls fail; clocks, random bytes and
generated IDs are parameters. Code that updates state is a class whose methods are proved equal to
a step function; what holds over all histories is proved about that function.

| file | component |
|---|---|
| `Common.dfy`, `Text.dfy` | options, lists, splitting and joining strings |
| `LuaCodec.dfy` | `re/lua.go`: JSON to Lua tables and back |
| `TopicMatch.dfy` | `re/handlers.go`: MQTT wildcards (section 4.7.1 of MQTT 3.1.1) |
| `Alarms.dfy` | `alarms/`: the insert-if-changed log |
| `PatSecret.dfy`, `PatLifecycle.dfy` | `auth/service.go`: PAT secrets (base64 of section 4 of RFC 4648) and their life |
| `PatScopes.dfy` | `auth/pat.go`, `auth/cache/pat.go`: scopes and the scope cache |
| `Tokens.dfy` | `auth/service.go`, `auth/cache/tokens.go`: refresh tokens and their index |
| `Groups.dfy` | `groups/service.go`: parent column and parent tuples |
| `Connections.dfy` | `channels/service.go`, `clients/service.go`: the two connection tables |
| `Invitations.dfy` | `domains/service.go`: invitations and role members |
| `Bootstrap.dfy` | `bootstrap/service.go`: stored channel lists and live connections |
| `Reports.dfy` | `reports/service.go`: paging and splitting by publisher |
| `Usernames.dfy` | `users/service.go`, `api/http/common.go`: generated names and their validator |

## Where the expected property does not hold

Each of these has a lemma at a concrete input and an exact condition in the model.

- Alarms submitted late can make the table answer wrongly (`LateClearingIsLost`); it stays right if
  and only if the submission is in order (`SubmissionExact`).
- One scope target cached under two IDs is forgotten with the second (`SharedTargetIsForgotten`);
  with replacing counted, the cache agrees always (`CacheAgreesWithScopes`).
- `RemoveAllScope` of the scope cache removes nothing, whatever is cached (`RemoveAllScopeFindsNothing`).
- A PAT reset whose second write fails locks the owner out (`HalfResetLocksOut`); `AcceptedExactly`
  covers every pattern of failures.
- The rollback of `RemoveChildrenGroups` invents tuples for parentless groups, `RemoveAllChildrenGroups`
  has none and wipes all tuples for an empty ID, and a rollback may itself fail
  (`RollbackInventsTuple`, `RemoveAllLosesTuples`, `FailedRollbackDiffers`; `StepExact` in `Groups`).
- Adding and removing children look at the enabled groups of the list only, and the repository updates
  all of them, so a disabled child makes the stores differ with no call failing
  (`DisabledChildGetsNoTuple`, `DisabledChildKeepsTuple`; `StepExact` in `Groups`).
- A connect that ends between its two inserts cannot be repeated (`HalfConnectIsStuck`; `RetryExact`),
  and after a call that ended halfway the guards of the delete paths skip a needed cleanup
  (`GuardsSkipAfterCutOff`; `ChannelGuardExact`, `ClientGuardExact`).
- `RoleRemoveAllMembers` leaves confirmed invitations behind (`ConfirmedWithoutMember`; `SafeIsExact`),
  and an accept that ends between its two writes cannot be repeated (`HalfAcceptIsStuck`; `RetryExact`
  in `Invitations`).
- Emptying the channel list of an active bootstrap configuration disconnects its channels but keeps
  the list, because the repository ignores an empty list, and a client removed while active stays
  connected (`EmptiedAndReaddedDiffer`; `StepExact` in `Bootstrap`). A failed activation cannot be
  taken back (`AbandonedActivation`; `AbandonedAttempt`), and a list update that failed after a
  connect cannot be repeated (`CutUpdateIsStuck`; `UpdateRetryExact`).
- A report metric can be read with an earlier metric's filter (`FilterIsInherited`; `OwnFilterExactly`).
- A separator that returns after dropped characters survives sanitizing, although the comment
  promises otherwise (`BridgedNameIsRefused`; `DoubledIffKeptBridge`, `ValidIffNoKeptBridge`).
- Replacing `#` by `+` loses matches (`WideningTheTailLosesMatches`), and the secret `pat` alone is
  indexed out of range (`OnlyBarePrefixFallsThrough`).

## Model

| member | source | states |
|---|---|---|
| `LuaCodec.TraverseJson` | re/lua.go:119-150 | filling tables slot by slot and key by key gives the Lua image of the value, for every tree |
| `LuaCodec.ConvertLua` | re/lua.go:152-185 | classifying a table and rebuilding it gives the JSON image, mixed tables included |
| `LuaCodec.LuaImage` | re/lua.go:119-150 | the Lua image keeps scalars, every element in its slot, and every member that is not nil under its key |
| `LuaCodec.MixedTable` | re/lua.go:169-173 | a table with a live string key becomes an object: string keys with their own value, live slots counted from one under their printed index unless a string key prints alike, and nothing else |
| `Text.DecimalDenotes` | re/lua.go:171-171 | the printed index evaluates back to the number and has no zero in front |
| `LuaCodec.OnlyNumberKeys` | re/lua.go:155-160 | a table counts as an array exactly when no string key is live |
| `LuaCodec.RoundTrip` | re/lua.go:119-185 | for every tree, into Lua and back is the normal form: nulls dropped in order, an object left empty becomes the empty array |
| `LuaCodec.RoundTripIdentity` | re/lua.go:119-185 | the round trip is the identity on exactly the trees without null, empty object or non-float number, and on a bare null |
| `LuaCodec.RoundTripTwice` | re/lua.go:119-185 | a second round trip changes nothing |
| `TopicMatch.MatchTopic` | re/handlers.go:63-80 | the loop decides the level-wise MQTT relation, the pattern cut at its first `#` |
| `TopicMatch.RecursionMatches` | re/handlers.go:61-80 | that relation equals the recursive one, for all level lists |
| `TopicMatch.WildcardFreeIsEquality` | re/handlers.go:75-79 | a pattern without wildcards matches exactly its own text |
| `TopicMatch.TailMatchesParentAndBelow` | re/handlers.go:69-71 | `a/#` matches `a` and everything below it |
| `TopicMatch.AnyLevelMatches` | re/handlers.go:75-77 | `a/+/b` matches `a/x/b` for every single level `x`, whatever `a` and `b` are |
| `TopicMatch.AnyLevelMatchesOnly` | re/handlers.go:75-79 | without other wildcards it matches nothing else |
| `TopicMatch.LevelWideningKeepsMatches` | re/handlers.go:75-77 | replacing a level by `+` loses no match |
| `TopicMatch.TailWideningKeepsMatches` | re/handlers.go:69-71 | replacing any tail by `#` loses no match |
| `TopicMatch.WideningTheTailLosesMatches` | re/handlers.go:69-77 | replacing position i by `+` keeps all matches if and only if i is not the first `#` |
| `Alarms.AsOfIsLatest` | alarms/postgres/alarms.go:39-51 | the predecessor query yields the latest row of the key at or before the time, or says there is none |
| `Alarms.AlarmService.CreateAlarm` | alarms/service.go:29-48 | exactly the valid alarms go through; every success, duplicates included, adds one event with the key, status, severity and given or current time to the history the table compresses; a failure changes nothing |
| `Alarms.SubmissionExact` | alarms/postgres/alarms.go:37-78 | a table that answers every as-of question keeps doing so after a submission in any order, if and only if it is suppressed, nothing later was submitted, or the next event is stored |
| `Alarms.LateClearingIsLost` | alarms/postgres/alarms.go:48-50 | three submissions after which the table answers wrongly |
| `Alarms.CompressedLogIsFaithful` | alarms/postgres/alarms.go:37-78 | over every run with increasing times per key the table answers every as-of question as the full history, is part of it, and has no redundant row |
| `PatScopes.KeyDetermines` | auth/cache/pat.go:118-120 | the key of a colon-free scope is the key of no other request, whatever the request contains |
| `PatScopes.KeyText` | auth/cache/pat.go:118-120 | the parts of a key, their order and separators |
| `PatScopes.PrefixIffUser` | auth/cache/pat.go:57-58 | the scan of a user finds exactly that user's keys |
| `PatScopes.CacheAgreesWithScopes` | auth/cache/pat.go:29-99 | over every run of saves and removals, a request hits if and only if a saved scope not removed or replaced since authorizes it |
| `PatScopes.DistinctScopesAgree` | auth/cache/pat.go:29-99 | for pairwise distinct scopes the same holds of plain saving and removing |
| `PatScopes.HitIsGranted` | auth/cache/pat.go:40-50 | with expiry of any keys at any time in the run, every hit is still justified |
| `PatScopes.SharedTargetIsForgotten` | auth/cache/pat.go:52-85 | distinctness is needed: a concrete run that forgets a scope |
| `PatScopes.RemoveAllScopeFindsNothing` | auth/cache/pat.go:101-116 | its pattern is the key of no cached scope |
| `PatScopes.PatCache.SaveScopes` | auth/cache/pat.go:29-38 | adds to the history the scopes up to the first failing write |
| `PatScopes.PatCache.CheckScope` | auth/cache/pat.go:40-50 | a hit is justified by a saved scope, not since removed, that authorizes the request; without expiry and store errors every such request is a hit |
| `PatScopes.PatCache.RemoveScopes` | auth/cache/pat.go:52-85 | deleting while scanning removes exactly the user's keys with a listed ID; an error after some keys leaves those removed that were visited, which counts as expiry |
| `PatScopes.PatCache.RemoveUserAllScope` | auth/cache/pat.go:87-99 | removes exactly the user's keys, or as many of them as came before an error |
| `PatSecret.DecodeOfEncode` | auth/service.go:771-791 | base64 decoding undoes encoding, for byte strings of every length |
| `PatSecret.SymbolIsInTable` | auth/service.go:773-773 | the symbols are the alphabet of section 4 of RFC 4648 |
| `PatSecret.GroupBits` | auth/service.go:771-774 | four symbols are the bits of three bytes, most significant first |
| `PatSecret.EncodeGroups` | auth/service.go:771-774 | bytes are encoded group by group, and one or two bytes left over are padded with `=` |
| `PatSecret.GenerateRandomString` | auth/service.go:793-806 | each character is the alphabet's at the random byte modulo its length |
| `PatSecret.SecretSplits` | auth/service.go:766-766 | an issued secret splits at `_` into `pat`, the encoding of user then PAT, and the random part |
| `PatSecret.SecretRoundTrip` | auth/service.go:716-724 | reading an issued secret returns its user and PAT |
| `PatSecret.SecretInjective` | auth/service.go:751-769 | equal secrets have equal user, PAT and random part |
| `PatSecret.OnlyBarePrefixFallsThrough` | auth/service.go:717-721 | the shape check is followed by an index out of range for the bare prefix and for no other string |
| `PatLifecycle.AcceptedExactly` | auth/service.go:509-547 | over every history and every failure pattern, a secret is accepted if and only if it was stored last, has not expired, and the PAT was activated and not revoked or deleted since |
| `PatLifecycle.LastIssuedIsAccepted` | auth/service.go:716-741 | without half-failed resets: if and only if it is the last issued, not revoked, deleted or expired |
| `PatLifecycle.HalfResetLocksOut` | auth/service.go:608-632 | a reset that fails in its second write: the issued secret is refused, the discarded one accepted |
| `PatLifecycle.IssueEffect` | auth/service.go:509-547 | after a create or reset that hands a secret out, of all secrets naming the PAT exactly that one is accepted, until it expires; other PATs are not concerned |
| `PatLifecycle.RemovalEffect` | auth/service.go:597-644 | after a delete or a revocation no secret naming the PAT is accepted; other PATs are not concerned |
| `PatLifecycle.DeleteAllEffect` | auth/postgres/repo.go:359-377 | after deleting all PATs of a user exactly the secrets of other users stay accepted, also when the call then fails in the scope cache |
| `PatLifecycle.PatService.ResetPATSecret` | auth/service.go:608-632 | replaces the hash, then reactivates; what stays when either write fails |
| `PatLifecycle.PatService.IdentifyPAT` | auth/service.go:716-741 | accepts a string if and only if the call history stored it last for its PAT, unexpired, and the PAT is active since; panics for the bare prefix only |
| `Tokens.TokensCache.ListUserTokens` | auth/cache/tokens.go:59-106 | purges past seconds, then returns each indexed token whose key is live, once, in the order of the scores, with its description |
| `Tokens.ListingIsExact` | auth/cache/tokens.go:59-106 | in every reachable state a listing holds a token if and only if it is active, the user's, and its expiry second is ahead |
| `Tokens.LogInEffect` | auth/service.go:280-312 | a login that goes through hands out both tokens and puts the refresh token, with its description and expiry, into both structures of the cache; no other key changes |
| `Tokens.UnsavedLogin` | auth/service.go:305-309 | a login without subject or refresh duration hands out tokens and saves nothing; a refused one, or one whose save fails, hands out nothing |
| `Tokens.LoginRefreshes` | auth/service.go:280-375 | from its login on, in every run that does not revoke it, the token handed out refreshes if and only if the refresh duration is not over |
| `Tokens.LoginIsListed` | auth/cache/tokens.go:59-106 | from its login on, in every run that does not revoke it, the token is listed if and only if its expiry second lies ahead, with the description of the latest login or refresh |
| `Tokens.RefreshEffect` | auth/service.go:331-375 | a refresh that goes through hands out a new access token and the same refresh token, keeps it active and indexed, and touches no other key |
| `Tokens.RevokeEffect` | auth/cache/tokens.go:109-116 | a revocation removes the key, and the ID from the named user's set, and nothing else |
| `Tokens.RevokedNeverRefreshes` | auth/service.go:157-163 | after a revocation no refresh with the ID succeeds in any continuation |
| `Tokens.UnrevokedRefreshes` | auth/service.go:331-375 | until revoked, a saved token refreshes if and only if it has not expired |
| `Tokens.ExpiriesAreFixedAtLogin` | auth/service.go:280-375 | every refresh token keeps its login's expiry, and access tokens end before login time plus refresh plus login duration |
| `Tokens.AuthService.AccessKey` | auth/service.go:280-312 | the tokens handed out, active and indexed when there is a subject and a duration, and the new state, failures included |
| `Tokens.AuthService.RefreshKey` | auth/service.go:331-375 | succeeds exactly when the token is unexpired, active, authorized and saved; keeps ID, subject and expiry |
| `Tokens.AuthService.Revoke` | auth/service.go:157-163 | removes the ID from the cache, or fails unchanged |
| `Groups.StepExact` | groups/service.go:55-453 | from equal stores, a call under any pattern of failing writes and failing rollbacks, on enabled and disabled groups, leaves them equal if and only if it is safe |
| `Groups.StoresAgree` | groups/service.go:214-371 | over every safe run a parent tuple exists exactly for the parent column |
| `Groups.CompensatedRunsAgree` | groups/service.go:55-453 | every run whose compensating writes succeed, that lists enabled groups as children and removes them from their own parent, and that ends no call without rollback halfway, keeps the stores equal, whatever else fails |
| `Groups.StepKeepsWellFormed` | pkg/policies/spicedb/service.go:783-849 | every call, failed rollbacks included, keeps the foreign key, no group its own parent, and tuples between known groups, except a deletion of a group with a parent cut off after its own policies |
| `Groups.CreateEffect` | groups/service.go:55-111 | a new group has the given parent and status and a tuple exactly for its parent; all others stay as they are |
| `Groups.AddParentEffect` | groups/service.go:214-248 | sets column and tuple of that group only |
| `Groups.RemoveParentEffect` | groups/service.go:250-285 | clears column and tuple of that group only |
| `Groups.AddChildrenEffect` | groups/service.go:287-329 | all listed groups get the parent, the enabled ones a tuple, and nothing else changes |
| `Groups.RemoveChildrenEffect` | groups/service.go:331-371 | all listed groups of the parent lose it, the enabled ones their tuple, and nothing else changes |
| `Groups.RemoveAllChildrenEffect` | groups/service.go:373-390 | afterwards no group and no tuple has that parent; every other column entry and tuple is as before |
| `Groups.DeleteEffect` | groups/service.go:400-453 | a deleted group is gone from both stores and its children have no parent; all else is as before |
| `Groups.RemoveUndoesAddParent` | groups/service.go:214-285 | removing a parent undoes adding it, in both stores |
| `Groups.RemoveUndoesAddChildren` | groups/service.go:287-371 | removing children undoes adding them if and only if the disabled groups of the list had no parent |
| `Groups.DeleteRetry` | groups/service.go:400-453 | repeating a deletion that ended after any of its writes ends where the whole one would have |
| `Groups.RollbackInventsTuple` | groups/service.go:342-365 | a reachable state in which the rollback writes a tuple nothing accounts for |
| `Groups.RemoveAllLosesTuples` | groups/service.go:373-390 | a reachable state in which removing all children loses tuples: the second write fails, or the ID is empty |
| `Groups.FailedRollbackDiffers` | groups/service.go:235-241 | reachable states in which a failing rollback, and a deletion that ends in front of the row, leave the stores different |
| `Groups.DisabledChildGetsNoTuple` | groups/service.go:287-329 | a reachable state in which adding a disabled child next to an enabled one, with no failing call, gives it a parent and no tuple |
| `Groups.DisabledChildKeepsTuple` | groups/service.go:331-371 | a reachable state in which removing a disabled child next to an enabled one clears its parent and keeps the tuple |
| `Groups.GroupService.CreateGroup` | groups/service.go:55-111 | row, tuples, roles and both rollbacks, any of them failing, amount to one step |
| `Groups.GroupService.AddParentGroup` | groups/service.go:214-248 | two writes and the rollback amount to one step; a failure that is rolled back changes nothing |
| `Groups.GroupService.RemoveParentGroup` | groups/service.go:250-285 | two writes and the rollback amount to one step; a failure that is rolled back changes nothing |
| `Groups.GroupService.AddChildrenGroups` | groups/service.go:287-329 | the enabled groups of the list are validated and get tuples, all listed groups get the parent; with the rollback one step, and a failure that is rolled back changes nothing |
| `Groups.GroupService.RemoveChildrenGroups` | groups/service.go:331-371 | the enabled groups of the list lose tuples, all listed groups of the parent lose it; the exact state after success, refusal, rollback and refused or failed rollback |
| `Groups.GroupService.RemoveAllChildrenGroups` | groups/service.go:373-390 | after a success no group and no tuple has the parent; the exact state after each of its two calls fails; an error also when the group has no child |
| `Groups.GroupService.RetrieveByIDs` | groups/postgres/groups.go:499-549 | exactly the enabled groups of the list |
| `Groups.GroupService.ChangeStatus` | groups/service.go:454-465 | enables or disables; fails for a missing group and for the status it has |
| `Groups.GroupService.DeleteGroup` | groups/service.go:400-453 | the exact state after each of its five writes |
| `Connections.Listed` | channels/service.go:312-331 | the triple loop lists exactly the product of channels, clients and types |
| `Connections.ListedOnce` | channels/service.go:312-331 | it repeats a connection if and only if one of the lists has a repeat |
| `Connections.StepExact` | channels/service.go:222-405 | from equal tables, a call cut off after any number of writes leaves them equal if and only if it is not halfway |
| `Connections.CheckEntities` | channels/service.go:286-310 | accepts exactly the lists whose entities all exist, belong to the domain and, when connecting, are enabled |
| `Connections.TablesAgree` | channels/service.go:222-405 | over every run in which started pairs of writes complete, both tables are equal and every connection joins a channel and client of its domain |
| `Connections.ConnectEffect` | channels/service.go:285-351 | a connect that goes through puts exactly the product into both tables |
| `Connections.NewConnectionsAreEnabled` | channels/service.go:286-310 | whatever call, cut off anywhere: a new connection joins an enabled channel and an enabled client of its domain |
| `Connections.DisconnectEffect` | channels/service.go:353-405 | takes exactly the product out of both tables if all entities exist in the domain, enabled or not, and else changes nothing |
| `Connections.RemoveChannelEffect` | channels/service.go:222-283 | a removed channel is gone with exactly its connections, from equal tables |
| `Connections.DeleteClientEffect` | clients/service.go:340-388 | the same for a client |
| `Connections.MarkedIsRefused` | channels/service.go:234-237 | after a removal that ended after its mark nothing can be connected to the entity |
| `Connections.RetryExact` | channels/service.go:222-405 | repeating a cut-off call ends where the whole call would have, if and only if it is not a connect that wrote one table |
| `Connections.HalfConnectedBlocks` | channels/service.go:333-349 | a connection only the clients service has blocks every connect that names it, in every run until it is disconnected or an end is removed |
| `Connections.HalfConnectIsStuck` | channels/service.go:345-349 | a reachable state in which a connect that wrote one table is refused when repeated |
| `Connections.RepairExact` | channels/service.go:353-405 | disconnecting makes the tables equal again if and only if it names every connection in which they differ |
| `Connections.DisconnectUndoesConnect` | channels/service.go:285-405 | disconnecting what was connected, fully or halfway, restores both tables |
| `Connections.ChannelGuardExact` | channels/service.go:222-283 | removing a channel leaves rows of it in the clients service if and only if the channels side had none and the clients side had some |
| `Connections.ClientGuardExact` | clients/service.go:340-388 | the same for a client |
| `Connections.GuardsSuffice` | channels/service.go:222-233 | from equal tables neither guard skips a needed cleanup |
| `Connections.GuardsSkipAfterCutOff` | clients/service.go:340-348 | reachable states in which each guard skips one |
| `Connections.ConnectionServices.ConnectAll` | channels/service.go:285-351 | succeeds exactly for enabled, distinct endpoints of the domain, unconnected on both sides, and adds exactly the product; the tables when either insert fails |
| `Connections.ConnectionServices.DisconnectAll` | channels/service.go:353-405 | removes exactly the product from both tables; the tables when either deletion fails |
| `Connections.ConnectionServices.RemoveChannelRow` | channels/service.go:222-283 | cleanup in the other service under the guard, mark, delete; the state when any of them fails |
| `Connections.ConnectionServices.DeleteClientRow` | clients/service.go:340-388 | the same for a client |
| `Invitations.CallKeepsInv` | domains/service.go:191-424 | cut off after any write, a safe call leaves no invitation confirmed and rejected, and every confirmed invitee a member of a role of that domain |
| `Invitations.SafeIsExact` | domains/service.go:413-424 | only removing all members of a role with confirmed invitations breaks it |
| `Invitations.ConfirmedWithoutMember` | domains/service.go:413-424 | a run that ends with a confirmed invitation without membership |
| `Invitations.ConfirmedAreMembers` | domains/service.go:258-411 | the invariant over every run of cut-off calls |
| `Invitations.SendStores` | domains/service.go:191-220 | sending stores an unanswered invitation with the given role if there is none; nothing else changes |
| `Invitations.ResendReopens` | domains/service.go:222-238 | sending again makes exactly a rejected invitation unanswered and keeps its role; nothing else changes |
| `Invitations.RejectMarks` | domains/service.go:297-328 | rejecting marks exactly an unanswered invitation as rejected; nothing else changes |
| `Invitations.RejectedIsRefused` | domains/service.go:258-275 | a rejected invitation cannot be accepted in any run until it is sent again or deleted |
| `Invitations.DeleteRemoves` | domains/service.go:330-356 | the invitee deletes in every state, anyone else exactly an unanswered invitation; nothing else changes |
| `Invitations.RemoveAllEmpties` | domains/service.go:413-424 | empties exactly a role of the domain that is not built in, and touches nothing else |
| `Invitations.DomainRemovalDeletes` | domains/service.go:382-388 | deletes exactly the invitations of the users to the domain |
| `Invitations.AcceptJoins` | domains/service.go:258-295 | accepting makes the invitee a member, confirms, and changes nothing else |
| `Invitations.RemovalIsComplete` | domains/service.go:390-411 | removed members lose membership and invitations; everyone else keeps both |
| `Invitations.SomeoneRemains` | domains/service.go:396-404 | more members than names leaves one, repeated or unknown names included |
| `Invitations.BuiltInRoleKeepsMember` | domains/service.go:382-424 | a built-in role with a member never becomes empty over any run, provided that removing domain members drops nobody of the role |
| `Invitations.RetryExact` | domains/service.go:191-424 | repeating a cut-off call ends where the whole call would have, if and only if it is not an accept between its two writes |
| `Invitations.HalfAcceptedBlocks` | domains/service.go:258-295 | whoever holds a role of the domain can accept no invitation to it, in every run until the membership is taken away |
| `Invitations.HalfAcceptIsStuck` | domains/service.go:281-292 | a run that ends with a pending invitation that cannot be accepted |
| `Invitations.DomainService.SendInvitation` | domains/service.go:191-238 | the state after sending or resending, failures included, and exactly when the call succeeds |
| `Invitations.DomainService.AcceptInvitation` | domains/service.go:258-295 | membership, then confirmation; the state after each failing write |
| `Invitations.DomainService.RejectInvitation` | domains/service.go:297-328 | rejects exactly a pending invitation whose domain and role can be looked up |
| `Invitations.DomainService.DeleteInvitation` | domains/service.go:330-356 | the invitee deletes in any state, others a pending one |
| `Invitations.DomainService.RemoveMembersOfRole` | domains/service.go:390-411 | invitations, then members; refused when a built-in role could be emptied |
| `Invitations.DomainService.RemoveAllMembersOfRole` | domains/service.go:413-424 | refused for a built-in role, else empties the role |
| `Invitations.DomainService.RemoveMembersOfDomain` | domains/service.go:381-388 | deletes the invitations; the repository drops no membership (pkg/roles/repo/postgres/roles.go:830) |
| `Bootstrap.UpdateList` | bootstrap/service.go:450-475 | what to connect and what to disconnect, for every pair of lists |
| `Bootstrap.AddsNewChannels` | bootstrap/service.go:460-468 | on a list without repeats, exactly the new channels, once each |
| `Bootstrap.ConnectedAgainIffRepeated` | bootstrap/service.go:460-468 | a configured channel is connected again if and only if it is named twice |
| `Bootstrap.ConnectionChannels` | bootstrap/service.go:420-448 | fetches exactly the channels that do not exist yet, or fails if one cannot be fetched |
| `Bootstrap.StepExact` | bootstrap/service.go:139-361 | a call that does not fail keeps every client reconciled if and only if it is safe |
| `Bootstrap.EmptiedAndReaddedDiffer` | bootstrap/service.go:212-262 | two runs after which live connections and configuration differ: emptying an active list, and adding a removed client again |
| `Bootstrap.RunsReconcile` | bootstrap/service.go:212-361 | over every safe run an active client is connected to exactly its list and an inactive one to nothing |
| `Bootstrap.UpdateEffect` | bootstrap/service.go:212-262 | the list is stored and, for an active client, its live connections become exactly the list; other clients are untouched |
| `Bootstrap.ChangeEffect` | bootstrap/service.go:326-361 | the state is stored and the live connections become the list or none; other clients are untouched |
| `Bootstrap.AttemptsConverge` | bootstrap/service.go:326-361 | any number of failed state changes and then a success end where one success would |
| `Bootstrap.AbandonedAttempt` | bootstrap/service.go:332-334 | asking for the old state after a failed change reconciles if and only if the change reached no channel |
| `Bootstrap.AbandonedActivation` | bootstrap/service.go:332-346 | a run with an activation that reached one channel and was given up |
| `Bootstrap.UpdateRetryExact` | bootstrap/service.go:212-262 | a cut-off list update can be repeated if and only if it had connected nothing; then it ends where one success would |
| `Bootstrap.CutUpdateIsStuck` | bootstrap/service.go:248-257 | a run with an update that can never be repeated |
| `Bootstrap.RecoverByDeactivating` | bootstrap/service.go:212-361 | deactivating, storing the list and activating recovers from every cut-off update |
| `Bootstrap.BootstrapService.UpdateConnections` | bootstrap/service.go:212-262 | succeeds exactly for a known client, fetchable channels, no repeats and no new channel already connected; how far the remote calls came and what stays when any of them or the final write fails |
| `Bootstrap.BootstrapService.ChangeState` | bootstrap/service.go:326-361 | the state after a success and after a failure at any channel or at the final write |
| `Reports.ReadPages` | reports/service.go:309-352 | the page loop ends, the 64-bit offset never overflows, and the whole result is gathered in order, unless a page that is asked for fails |
| `Reports.GroupReportsByPublisher` | reports/service.go:478-503 | one report per publisher, holding the messages at all positions of that publisher in increasing order; one empty report if there are none |
| `Reports.PartitionKeepsOrder` | reports/service.go:481-483 | every report of a partition has strictly increasing positions in the result, and all of its publisher's |
| `Reports.PartitionConserves` | reports/service.go:478-503 | the reports hold every message exactly as often as the result |
| `Reports.ExpandMetrics` | reports/service.go:283-307 | one metric per named client, or one for all |
| `Reports.ExpandOne` | reports/service.go:286-306 | a request gives one metric per named client in order, or a single one without a client |
| `Reports.ExpandConcat` | reports/service.go:285-307 | requests are expanded one after the other |
| `Reports.GenerateReport` | reports/service.go:283-355 | each metric is answered by a non-empty group of reports from the whole result for the filter in force, or the call fails exactly because a page of a query failed |
| `Reports.QueryReads` | reports/service.go:309-334 | what is read for a metric: its own channel and name, and of each optional field the value set last |
| `Reports.OwnFilterExactly` | reports/service.go:312-325 | a metric is read with its own filter if and only if no earlier one set a field it leaves empty |
| `Reports.FilterIsInherited` | reports/service.go:314-325 | two metrics, the second read with the publisher of the first |
| `Usernames.SanitizeForUsername` | users/service.go:809-850 | the byte loop computes the scan, trim and limit |
| `Usernames.SanitizedShape` | users/service.go:803-850 | for every text: a subsequence over `[a-z0-9_-]`, within the limit, with alphanumeric ends |
| `Usernames.NoAlnumIsLost` | users/service.go:817-840 | unless the limit cuts, every letter and digit is kept in order |
| `Usernames.CleanIsUnchanged` | users/service.go:817-849 | a clean text comes back unchanged |
| `Usernames.DoubledIffBridged` | users/service.go:825-834 | the buffer holds a doubled separator if and only if one returned after dropped characters only |
| `Usernames.DoubledIffKeptBridge` | users/service.go:809-850 | a sanitized text holds a doubled separator if and only if the text bridges one between two letters or digits within the limit |
| `Usernames.ValidIffNoKeptBridge` | api/http/common.go:146-157 | for every email: the generated name is valid if and only if the local part is empty, looks like an ID, or bridges no separator that way |
| `Usernames.GeneratedName` | users/service.go:765-786 | a clean local part of at most fifteen characters gives `local_suffix`; one that looks like an ID, or of which no letter or digit is kept, gives `user_suffix` |
| `Usernames.PlainNameIsValid` | api/http/common.go:146-157 | letters and digits alone are valid from one to thirty-two of them |
| `Usernames.UnbridgedIsAccepted` | api/http/common.go:146-157 | a local part that bridges no separator gives a valid name |
| `Usernames.PlainLocalPartIsAccepted` | api/http/common.go:146-157 | in particular one of ASCII letters, digits, `-` and `_` |
| `Usernames.BridgedNameIsRefused` | users/service.go:832-834 | an email whose generated name the validator refuses |

## Left out

- HTTP and gRPC transport, CLI, logging, metrics, tracing, events, migrations and brokers: plumbing.
- Script execution, output drivers, rendering of PDF and CSV, encryption, provisioning, scheduling.
- Concurrency between service calls: a call is one step, which may end after any of its writes.
- The Lua runtime's own table keys other than positive integers and strings, and floating-point
  rounding: numbers are reals.
- Alarms.AlarmService.CreateAlarm: columns the query does not read are not kept; two rows of one
  key with equal times are not ordered by the query and the results ask for distinct times.
- Redis scan patterns are modelled as prefixes, so user IDs are taken to hold no glob characters.
- The SQL of PAT scopes (`auth/postgres/repo.go`) behind the cache, and roles of PAT owners.
- The hash is ideal: equal exactly for the hashed text. Salt and cost are not modelled.
- Tokens.TokensCache.ListUserTokens: tokens of equal score come in any order, and times to live end at
  the tick of their expiry.
- Group paths, depth limits and longer cycles are among the failures of the assigning transaction.
  All groups belong to one domain, and the calls to channels and clients that start a group's
  deletion are not modelled.
- Role membership tuples in the policy store, and removing or renaming roles.
- Connection types other than publish and subscribe, which no decoder lets through, and with them the
  query text that `RemoveConnections` of the channels repository carries from one connection to the next.
- The event handlers that bootstrap delegates to its repository.
- Reports.GenerateReport: a result is taken to stay below the 64-bit limit minus one page.
- Usernames.ValidIffNoKeptBridge: lower-casing is a parameter and the random suffix is any ten
  hexadecimal digits.
