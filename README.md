# wavey, modelled in Dafny

wavey is a virtual office. Users own or join workspaces, invite others with
invite codes, and "wave" at a colleague to start a short call.

This project models the parts of it that decide what is stored and who may do
what.

On the server:
- the five tables, together with the constraints their schema declares;
- the repositories that read and write those tables;
- the CASL rule list of `defineAbilitiesFor` and the authorization service built on it;
- the workspace, invite and wave services;
- the HTTP handlers of `app.ts`;
- the error taxonomy and the global error handler;
- the Bearer-token middleware;
- the zod request schemas.

On the client:
- the two `useWaveReceiver` hooks: the mock one and the realtime one;
- the `useCall` state machine;
- `extractMembers` of the presence hook;
- the two formatters `formatDuration` and `formatTime`, with the history's result labels.

## How the model is organised

Tables are values. `Db.Tables` holds one map per table, keyed by the primary key.

`Db.Consistent` states what the schema enforces:
- keys match the rows they hold;
- emails and invite codes are unique;
- every foreign key points at a stored row;
- integer columns fit a 32-bit `integer`.

Beside it are the invariants the application itself keeps:
- `OwnerConsistent`: a workspace's `ownerId` and its single owner-role member row agree;
- `UsesWithinLimit`: an invite's `usedCount` never exceeds its `maxUses`;
- `WaveInvariants`: at most one pending wave per sender, recipient and workspace, and no wave to oneself.

Each repository call and each service operation is a function from tables to a
`Step`: the result, and the tables afterwards. A database error ends the call
as `Aborted`; an application rejection ends it as `Rejected`. A transaction
that fails leaves the tables as they were.

`Storage.Store` is the database as a mutable object. Its methods change the
maps in place and are proved equal to the repository functions. The service
and handler methods drive a `Store`, and their `ensures` ties the new state to
the step function of the old state.

The client hooks are classes whose fields are the hook's state. Callbacks
such as `onAccept`, `onCallStart` and `onCallEnd` become logs of the values
they were called with. Timers are counted as pending events, and each firing
is a method.

The realtime hook's `currentWave` and `waveCount` (hooks/useWaveReceiver.ts:131-141)
read its queue exactly as the mock hook's do: the head is `WaveQueue.Head`
of the queue and the count is its length. They are not declared a second time.

The list handler `listWorkspaces` (server/src/app.ts:105-118) only forwards
to `getWorkspacesByUserId`. It is covered by
`WorkspaceService.GetWorkspacesByUserId`.

`useCall` has a race, which the model exhibits in `UseCall.EndWhileConnecting`:
- `endCall` does not cancel the one-second connect timer that `startCall` set;
- so a call ended within half a second of being started is reset by the 500 ms timer first;
- the stale connect timer then fires afterwards;
- the hook ends up connected and ticking, with no participant, after having reported a zero-length call to `onCallEnd`.

## Model

| member | source | states |
|---|---|---|
| Results.Ok | server/src/lib/result.ts:17-19 | `ok(v)` is a success flagged as such, holding `v` |
| Results.Err | server/src/lib/result.ts:21-23 | `err(e)` is a failure flagged as such, holding `e` |
| Results.FlagsComplementary | server/src/lib/result.ts:1-15 | `isFailure` is the negation of `isSuccess`; every result is `ok` or `err` of its payload |
| Errors.CodeString | server/src/lib/errors.ts:1-22 | each code's wire string reads back to that code |
| Errors.ThirteenDistinctCodes | server/src/lib/errors.ts:1-22 | there are exactly thirteen codes, all distinct, and no two share a wire string |
| Errors.AppError.Name | server/src/lib/errors.ts:26-33 | an AppError's `name` is "AppError" |
| Errors.AppError.ToJson | server/src/lib/errors.ts:35-40 | `toJSON` carries the code, readable back, and the message unchanged |
| Errors.ToJsonInjective | server/src/lib/errors.ts:35-40 | two errors with the same JSON body are the same error |
| ErrorHandler.StatusCode | server/src/middleware/error-handler.ts:13-35 | 401 exactly for UNAUTHORIZED; 403 for the three permission codes; 404 for NOT_FOUND; 400 for the eight request codes; never 500 |
| ErrorHandler.HandleError | server/src/middleware/error-handler.ts:41-68 | an AppError gets its code's status and its own body; a ZodError or a status-400 error gets 400 VALIDATION_ERROR with its message; anything else gets 500 INTERNAL_ERROR, with the message hidden in production |
| ErrorHandler.HandlerStatusClasses | server/src/middleware/error-handler.ts:41-68 | the handler answers only 400, 401, 403, 404 or 500; 500 exactly for an unclassified error; an AppError's code survives the round trip |
| Db.EmptyConsistent | server/db/schema.ts:5-104 | the empty database satisfies every declared constraint |
| Db.OwnerConsistentExactlyOne | server/src/services/workspace/workspace-service.ts:22-73 | under owner consistency a stored workspace has exactly one owner-role member, its `ownerId` |
| Strings.NatToString | src/components/features/call/CallTimer.tsx:11 | `toString` of a whole number is a non-empty digit run without a leading zero |
| Strings.IntToString | src/hooks/useWaveReceiver.ts:25 | `String(n)` is the digits of `n`, with a minus sign when negative |
| Strings.DigitsValueOfNatToString | src/components/features/call/CallTimer.tsx:11 | reading the printed digits back gives the number |
| Strings.PadStart | src/components/features/call/CallTimer.tsx:11 | `padStart` keeps a long enough text and otherwise fills it on the left to the width, ending in the original |
| Strings.Prefix | hooks/useWaveReceiver.ts:54 | `slice(0, n)` is the leading `min(n, length)` characters |
| Strings.Utf16Length | server/src/schemas/user.ts:25 | a text's JavaScript `length` counts one unit per character below U+10000 and two above, so it lies between the character count and twice it, and equals the count when no character is above U+FFFF |
| Strings.Split | server/src/middleware/auth.ts:52-66 | `split` gives at least one part and no part holds the separator |
| Strings.JoinSplit | server/src/middleware/auth.ts:52-66 | joining the parts of a split with the separator gives back the text |
| UserRepository.FindUserById | server/src/repositories/user/user-repository.ts:8-14 | the row under that id, or none when there is none |
| UserRepository.FindUserByEmail | server/src/repositories/user/user-repository.ts:16-22 | a row exactly when some user has that email, and then that user |
| UserRepository.CreateUser | server/src/repositories/user/user-repository.ts:24-35 | inserts exactly the given user unless the id or the email is taken, which is a unique violation changing nothing; keeps consistency |
| UserRepository.UpdateUser | server/src/repositories/user/user-repository.ts:37-48 | an absent id returns nothing and changes nothing; otherwise the supplied display name and `updatedAt` are written and nothing else |
| WorkspaceRepository.FindById | server/src/repositories/workspace/workspace-repository.ts:8-14 | the workspace under that id, or none |
| WorkspaceRepository.FindByOwnerId | server/src/repositories/workspace/workspace-repository.ts:16-21 | exactly the workspaces with that owner |
| WorkspaceRepository.FindByUserId | server/src/repositories/workspace/workspace-repository.ts:23-30 | only stored workspaces are returned |
| WorkspaceRepository.FindByUserIdExactly | server/src/repositories/workspace/workspace-repository.ts:23-30 | a workspace is returned exactly when the user has a member row in it |
| WorkspaceRepository.FindWithMembers | server/src/repositories/workspace/workspace-repository.ts:32-43 | found exactly when the workspace is stored, holding that row |
| WorkspaceRepository.FindWithMembersComplete | server/src/repositories/workspace/workspace-repository.ts:32-43 | the members listed are exactly the member rows of the workspace, each joined with its user |
| WorkspaceRepository.Create | server/src/repositories/workspace/workspace-repository.ts:45-55 | inserts the workspace exactly when the owner exists, else a foreign-key violation changing nothing; keeps consistency |
| WorkspaceRepository.Delete | server/src/repositories/workspace/workspace-repository.ts:57-60 | removes the workspace and, by cascade, exactly its member rows, invites and waves |
| WorkspaceRepository.DeleteConsistent | server/db/schema.ts:41-104 | the cascade leaves a consistent database |
| WorkspaceRepository.DeleteReferences | server/db/schema.ts:41-104 | after the cascade every remaining foreign key still points at a row |
| WorkspaceRepository.UpdateOwner | server/src/repositories/workspace/workspace-repository.ts:62-65 | sets `ownerId` of that row alone; a missing new owner is a foreign-key violation changing nothing |
| WorkspaceUserRepository.FindByWorkspaceId | server/src/repositories/workspace-user/workspace-user-repository.ts:8-13 | exactly the member rows of that workspace |
| WorkspaceUserRepository.FindByUserId | server/src/repositories/workspace-user/workspace-user-repository.ts:15-20 | exactly the member rows of that user |
| WorkspaceUserRepository.CountByWorkspaceId | server/src/repositories/workspace-user/workspace-user-repository.ts:58-64 | the size of `FindByWorkspaceId`'s list, so it is 0 exactly when no member row names the workspace |
| WorkspaceUserRepository.IsMember | server/src/repositories/workspace-user/workspace-user-repository.ts:22-28 | true exactly when the pair has a row |
| WorkspaceUserRepository.Add | server/src/repositories/workspace-user/workspace-user-repository.ts:30-41 | inserts the row exactly when both ends exist and the pair is new; otherwise the matching error and no change; keeps consistency |
| WorkspaceUserRepository.Remove | server/src/repositories/workspace-user/workspace-user-repository.ts:43-48 | deletes exactly that pair's row, if any |
| WorkspaceUserRepository.UpdateRole | server/src/repositories/workspace-user/workspace-user-repository.ts:50-56 | changes that pair's role and nothing else |
| WorkspaceUserRepository.AddCounts | server/src/repositories/workspace-user/workspace-user-repository.ts:58-64 | a successful add raises that workspace's count by one and no other |
| WorkspaceUserRepository.RemoveCounts | server/src/repositories/workspace-user/workspace-user-repository.ts:58-64 | removing an existing row lowers that workspace's count by one; removing a missing one changes nothing |
| InviteRepository.FindInviteById | server/src/repositories/invite/invite-repository.ts:8-14 | the invite under that id, or none |
| InviteRepository.FindInviteByCode | server/src/repositories/invite/invite-repository.ts:16-22 | found exactly when some invite has that code, and then that invite |
| InviteRepository.FindInvitesByWorkspaceId | server/src/repositories/invite/invite-repository.ts:24-29 | exactly the invites of that workspace |
| InviteRepository.CreateInvite | server/src/repositories/invite/invite-repository.ts:31-43 | inserts the invite with `usedCount` 0 exactly when the workspace exists, the code is new and `maxUses` fits the column; otherwise an error changing nothing |
| InviteRepository.IncrementInviteUsedCount | server/src/repositories/invite/invite-repository.ts:45-51 | adds one to that invite's counter with no cap check; fails only on 32-bit overflow |
| InviteRepository.DeleteInvite | server/src/repositories/invite/invite-repository.ts:53-56 | deletes exactly that invite, if any |
| WaveRepository.FindWaveById | server/src/repositories/wave/wave-repository.ts:8-14 | the wave under that id, or none |
| WaveRepository.FindWavesByWorkspaceId | server/src/repositories/wave/wave-repository.ts:16-21 | exactly the waves of that workspace |
| WaveRepository.FindSentWavesByUserId | server/src/repositories/wave/wave-repository.ts:23-28 | exactly the workspace's waves from that user |
| WaveRepository.FindReceivedWavesByUserId | server/src/repositories/wave/wave-repository.ts:30-35 | exactly the workspace's waves to that user |
| WaveRepository.PendingWavesBetweenUsers | server/src/repositories/wave/wave-repository.ts:37-48 | the pending waves of that workspace, sender and recipient |
| WaveRepository.PendingWaveUnique | server/src/repositories/wave/wave-repository.ts:37-48 | with the pending-uniqueness invariant there is at most one such wave |
| WaveRepository.CreateWave | server/src/repositories/wave/wave-repository.ts:50-62 | inserts the wave exactly when the workspace and both users exist; otherwise a foreign-key violation changing nothing |
| WaveRepository.UpdateWaveStatus | server/src/repositories/wave/wave-repository.ts:64-73 | sets that wave's status and `respondedAt` and touches no other row |
| Storage.Store.constructor | server/db/schema.ts:5-104 | a new store is empty and valid |
| Storage.Store.Restore | server/src/services/invite/invite-service.ts:76-88 | a rollback puts every table back to the snapshot |
| Storage.Store.CreateWorkspace | server/src/repositories/workspace/workspace-repository.ts:45-55 | the in-place insert agrees with `WorkspaceRepository.Create` and keeps the store valid |
| Storage.Store.DeleteWorkspace | server/src/repositories/workspace/workspace-repository.ts:57-60 | the in-place cascade agrees with `WorkspaceRepository.Delete` |
| Storage.Store.UpdateWorkspaceOwner | server/src/repositories/workspace/workspace-repository.ts:62-65 | agrees with `WorkspaceRepository.UpdateOwner` |
| Storage.Store.AddMember | server/src/repositories/workspace-user/workspace-user-repository.ts:30-41 | agrees with `WorkspaceUserRepository.Add` |
| Storage.Store.RemoveMember | server/src/repositories/workspace-user/workspace-user-repository.ts:43-48 | agrees with `WorkspaceUserRepository.Remove` |
| Storage.Store.UpdateMemberRole | server/src/repositories/workspace-user/workspace-user-repository.ts:50-56 | agrees with `WorkspaceUserRepository.UpdateRole` |
| Storage.Store.CreateInvite | server/src/repositories/invite/invite-repository.ts:31-43 | agrees with `InviteRepository.CreateInvite` |
| Storage.Store.IncrementInviteUsedCount | server/src/repositories/invite/invite-repository.ts:45-51 | agrees with `InviteRepository.IncrementInviteUsedCount` |
| Storage.Store.DeleteInvite | server/src/repositories/invite/invite-repository.ts:53-56 | agrees with `InviteRepository.DeleteInvite` |
| Storage.Store.FindPendingWaveBetweenUsers | server/src/repositories/wave/wave-repository.ts:37-48 | returns one of the matching pending waves, and none exactly when there is none |
| Storage.Store.CreateWave | server/src/repositories/wave/wave-repository.ts:50-62 | agrees with `WaveRepository.CreateWave` |
| Storage.Store.UpdateWaveStatus | server/src/repositories/wave/wave-repository.ts:64-73 | agrees with `WaveRepository.UpdateWaveStatus` |
| Storage.Store.CreateUser | server/src/repositories/user/user-repository.ts:24-35 | agrees with `UserRepository.CreateUser` |
| Storage.Store.UpdateUser | server/src/repositories/user/user-repository.ts:37-48 | agrees with `UserRepository.UpdateUser` |
| Abilities.Can | server/src/lib/abilities.ts:48 | an empty rule list grants nothing |
| Abilities.ManageGrantsEveryAction | server/src/lib/abilities.ts:9 | a "manage" rule of the subject's kind whose condition holds allows every action |
| Abilities.DefineAbilitiesFor | server/src/lib/abilities.ts:60-91 | the last rule is always "create a workspace", and without a workspace context it is the only one |
| Abilities.CanIffPolicy | server/src/lib/abilities.ts:60-91 | the rule list allows an action on a subject exactly when the per-subject policy does: anyone creates workspaces; the owner manages workspaces, members and invites; a member reads them and may delete their own membership; owners and members create waves, read their own, and update those sent to them |
| Abilities.NoContextOnlyCreateWorkspace | server/src/lib/abilities.ts:60-91 | without a workspace context the only permission is creating a workspace |
| Abilities.AnyoneCreatesWorkspace | server/src/lib/abilities.ts:87-88 | creating a workspace is always allowed |
| Abilities.OwnerManagesAll | server/src/lib/abilities.ts:67-70 | the owner may do anything to a workspace, member or invite |
| Abilities.MemberRights | server/src/lib/abilities.ts:71-76 | a non-owner member reads (or creates) workspaces, reads members, and deletes only their own membership |
| Abilities.OutsiderOnlyCreatesWorkspace | server/src/lib/abilities.ts:60-91 | someone neither owner nor member can only create a workspace |
| Abilities.WaveRights | server/src/lib/abilities.ts:78-84 | wave rights go to owners and members only: create any, read one sent or received, update one received |
| Abilities.WorkspaceIdsIrrelevant | server/src/lib/abilities.ts:94-101 | no rule looks at a workspace id: changing the context's id or the subjects' workspace ids never changes the answer |
| AuthorizationService.BuildAbility | server/src/services/authorization/authorization-service.ts:18-39 | with no workspace id, or one that is not stored, the rules are the context-free ones: only "create a workspace" |
| AuthorizationService.CanRespondToWave | server/src/services/authorization/authorization-service.ts:108-110 | allowed only when some rule of the ability concerns waves and grants "manage" or "update" |
| AuthorizationService.CanReadWave | server/src/services/authorization/authorization-service.ts:115-117 | allowed only when some rule of the ability concerns waves and grants "manage" or "read" |
| AuthorizationService.BuildAbilityContext | server/src/services/authorization/authorization-service.ts:18-39 | `buildAbility` is `defineAbilitiesFor` with the stored owner and membership of the workspace, or no context |
| AuthorizationService.RequireWorkspaceOwner | server/src/services/authorization/authorization-service.ts:44-64 | NOT_FOUND without the workspace; success with the stored row exactly for its owner; otherwise NOT_WORKSPACE_OWNER |
| AuthorizationService.RequireWorkspaceMember | server/src/services/authorization/authorization-service.ts:69-89 | NOT_FOUND without the workspace; success exactly for the owner or a member; otherwise NOT_WORKSPACE_MEMBER |
| AuthorizationService.RequireInviteManager | server/src/services/authorization/authorization-service.ts:94-103 | success exactly for the owner, with no existence check; otherwise NOT_WORKSPACE_OWNER "Only the owner can manage invites" |
| AuthorizationService.WaveChecks | server/src/services/authorization/authorization-service.ts:108-117 | responding needs to be the recipient, reading to be sender or recipient, both only as owner or member |
| AuthorizationService.RequireCanRemoveMember | server/src/services/authorization/authorization-service.ts:124-150 | NOT_FOUND without the workspace; the owner can never be removed; otherwise the owner removes anyone and a member only themselves; every refusal is FORBIDDEN |
| AuthorizationService.IsWorkspaceOwner | server/src/services/authorization/authorization-service.ts:155-158 | true exactly when the workspace is stored with that owner |
| AuthorizationService.IsWorkspaceMember | server/src/services/authorization/authorization-service.ts:160-162 | true exactly when the pair has a member row |
| AuthorizationService.MemberCheckMatchesTable | server/src/services/authorization/authorization-service.ts:69-89 | on owner-consistent tables the rule-based member check agrees with the member table |
| WorkspaceService.CreateWorkspaceStep | server/src/services/workspace/workspace-service.ts:22-38 | in one transaction, the workspace and its owner row; on consistent tables success exactly when the owner exists; failure changes nothing |
| WorkspaceService.CreateWorkspace | server/src/services/workspace/workspace-service.ts:22-38 | the store method agrees with `CreateWorkspaceStep` and keeps the store valid |
| WorkspaceService.CreateWorkspaceSoleMember | server/src/services/workspace/workspace-service.ts:22-38 | a new workspace has exactly one member row, its owner's |
| WorkspaceService.CreateWorkspaceKeepsOwners | server/src/services/workspace/workspace-service.ts:22-38 | creating a workspace keeps owner consistency |
| WorkspaceService.DeleteWorkspaceStep | server/src/services/workspace/workspace-service.ts:40-43 | always succeeds, and the workspace is gone with its dependants |
| WorkspaceService.DeleteWorkspace | server/src/services/workspace/workspace-service.ts:40-43 | the store method agrees with `DeleteWorkspaceStep` |
| WorkspaceService.DeleteWorkspaceKeepsOwners | server/src/services/workspace/workspace-service.ts:40-43 | deleting a workspace keeps owner consistency |
| WorkspaceService.TransferOwnershipStep | server/src/services/workspace/workspace-service.ts:45-73 | NOT_WORKSPACE_MEMBER, changing nothing, unless the new owner has a member row; on consistent tables success exactly then, and consistency is kept |
| WorkspaceService.TransferOwnership | server/src/services/workspace/workspace-service.ts:45-73 | the store method agrees with `TransferOwnershipStep` |
| WorkspaceService.TransferOwnershipOutcome | server/src/services/workspace/workspace-service.ts:45-73 | after a successful transfer the new owner is `ownerId` and holds the owner role |
| WorkspaceService.TransferOwnershipEffect | server/src/services/workspace/workspace-service.ts:45-73 | a transfer writes exactly three things: `ownerId`, the new owner's role, and the old owner's demotion |
| WorkspaceService.TransferToSelfChangesNothing | server/src/services/workspace/workspace-service.ts:45-73 | transferring to the current owner succeeds and leaves the tables unchanged |
| WorkspaceService.TransferOwnershipKeepsOwners | server/src/services/workspace/workspace-service.ts:45-73 | when the caller names the real owner, a transfer keeps owner consistency |
| WorkspaceService.OwnerMoved | server/src/services/workspace/workspace-service.ts:56-70 | moving `ownerId` together with promoting and demoting the two rows keeps owner consistency |
| WorkspaceService.GetWorkspaceWithMembers | server/src/services/workspace/workspace-service.ts:75-84 | NOT_FOUND exactly without the workspace, else the workspace with its members |
| WorkspaceService.GetWorkspacesByUserId | server/src/services/workspace/workspace-service.ts:86-88 | on consistent tables every workspace returned has the user as a member |
| WorkspaceService.RemoveMemberStep | server/src/services/workspace/workspace-service.ts:90-93 | always succeeds and removes exactly that pair's row |
| WorkspaceService.RemoveMember | server/src/services/workspace/workspace-service.ts:90-93 | the store method agrees with `RemoveMemberStep` |
| WorkspaceService.RemoveNonOwnerKeepsOwners | server/src/services/workspace/workspace-service.ts:90-93 | removing anyone but the owner keeps owner consistency |
| InviteService.HexDigit | server/src/services/invite/invite-service.ts:20-22 | a nibble becomes one lowercase hexadecimal digit |
| InviteService.HexValue | server/src/services/invite/invite-service.ts:20-22 | a lowercase hexadecimal digit reads back to the nibble it encodes |
| InviteService.HexEncode | server/src/services/invite/invite-service.ts:20-22 | hex encoding gives two lowercase digits per byte |
| InviteService.HexDecode | server/src/services/invite/invite-service.ts:20-22 | decoding gives one byte per two digits |
| InviteService.HexDecodeEncode | server/src/services/invite/invite-service.ts:20-22 | decoding an encoding gives the bytes back |
| InviteService.HexEncodeDecode | server/src/services/invite/invite-service.ts:20-22 | encoding a decoding gives the text back |
| InviteService.GenerateInviteCode | server/src/services/invite/invite-service.ts:20-22 | six random bytes become a twelve-digit lowercase code that decodes back to them |
| InviteService.CreateInviteStep | server/src/services/invite/invite-service.ts:20-37 | the stored code is the six random bytes as twelve lowercase hex digits that decode back to them; the invite expires the configured number of days after now with `usedCount` 0; a database error changes nothing; keeps consistency |
| InviteService.CreateInvite | server/src/services/invite/invite-service.ts:25-37 | the store method agrees with `CreateInviteStep` |
| InviteService.CreateInviteKeepsUsesWithinLimit | server/src/services/invite/invite-service.ts:25-37 | a new invite with a non-negative `maxUses` keeps every counter within its cap |
| InviteService.AcceptInviteStep | server/src/services/invite/invite-service.ts:39-90 | every failure leaves the tables unchanged |
| InviteService.AcceptInviteNotFound | server/src/services/invite/invite-service.ts:40-44 | NOT_FOUND "Invite not found" exactly when no invite has the code |
| InviteService.AcceptInviteRejections | server/src/services/invite/invite-service.ts:46-74 | for an existing code the first failing check decides the error, in order: INVITE_EXPIRED, INVITE_MAX_USES_REACHED, ALREADY_MEMBER, MEMBER_LIMIT_EXCEEDED with the limit in its message; passing all four is never a rejection |
| InviteService.AcceptInvite | server/src/services/invite/invite-service.ts:39-90 | the store method agrees with `AcceptInviteStep`, rolling back a failed transaction |
| InviteService.AcceptInviteSucceeds | server/src/services/invite/invite-service.ts:39-90 | on consistent tables accepting succeeds exactly when an invite with the code is unexpired, under its cap, for a non-member, in a workspace below the member limit, the user exists and the counter fits the column |
| InviteService.AcceptInviteEffect | server/src/services/invite/invite-service.ts:76-88 | a success raises that invite's counter by one and adds the user as a plain member, and nothing else |
| InviteService.AcceptInviteExpiry | server/src/services/invite/invite-service.ts:39-90 | INVITE_EXPIRED exactly when now is strictly after the expiry instant |
| InviteService.AcceptInviteKeepsUsesWithinLimit | server/src/services/invite/invite-service.ts:39-90 | accepting keeps every counter within its cap |
| InviteService.AcceptInviteKeepsOwners | server/src/services/invite/invite-service.ts:39-90 | accepting adds only member-role rows, so owner consistency is kept |
| InviteService.GetInvitesByWorkspaceId | server/src/services/invite/invite-service.ts:92-94 | exactly the invites of the workspace |
| InviteService.DeleteInviteStep | server/src/services/invite/invite-service.ts:96-104 | NOT_FOUND exactly for a missing invite, changing nothing; otherwise exactly that invite is removed |
| InviteService.DeleteInvite | server/src/services/invite/invite-service.ts:96-104 | the store method agrees with `DeleteInviteStep` |
| WaveService.Lift | server/src/services/wave/wave-service.ts:20-62 | a database error becomes an abort and a value passes through |
| WaveService.SendWaveOutcome | server/src/services/wave/wave-service.ts:20-62 | an outcome it accepts returns, on success, a pending wave of the requested workspace from the sender to the recipient, and on a rejection leaves the tables as they were |
| WaveService.SendWaveCheck | server/src/services/wave/wave-service.ts:20-62 | CANNOT_WAVE_SELF first, then the membership checks for both users; passes exactly for two different users who both belong |
| WaveService.SendWave | server/src/services/wave/wave-service.ts:20-62 | a rejection changes nothing; an existing pending wave between the two is returned unchanged; otherwise one pending wave is inserted |
| WaveService.SendWaveDeterministic | server/src/services/wave/wave-service.ts:20-62 | with at most one pending wave per triple, the outcome of a send is determined by its inputs |
| WaveService.SendWaveSucceeds | server/src/services/wave/wave-service.ts:20-62 | a send succeeds exactly when the checks pass, returning a pending wave between the two |
| WaveService.SendWaveKeepsWaveInvariants | server/src/services/wave/wave-service.ts:20-62 | sending keeps at most one pending wave per triple and never stores a wave to oneself |
| WaveService.SendWaveIdempotent | server/src/services/wave/wave-service.ts:20-62 | repeating a successful send returns the same wave and changes nothing |
| WaveService.RespondWaveStep | server/src/services/wave/wave-service.ts:64-83 | NOT_FOUND, then FORBIDDEN unless the recipient answers, then WAVE_ALREADY_RESPONDED unless pending; success writes the answer |
| WaveService.RespondWave | server/src/services/wave/wave-service.ts:64-83 | the store method agrees with `RespondWaveStep` |
| WaveService.RespondWaveKeepsTerminal | server/src/services/wave/wave-service.ts:64-83 | a wave that has left pending is never rewritten, and a success moves a pending wave to the answer |
| WaveService.RespondWaveKeepsWaveInvariants | server/src/services/wave/wave-service.ts:64-83 | responding keeps every wave invariant |
| WaveService.GetReceivedWaves | server/src/services/wave/wave-service.ts:85-94 | the membership failure, or exactly the workspace's waves to the user |
| WaveService.GetSentWaves | server/src/services/wave/wave-service.ts:96-102 | the membership failure, or exactly the workspace's waves from the user |
| WaveService.GetWaveById | server/src/services/wave/wave-service.ts:104-116 | NOT_FOUND, then FORBIDDEN unless the caller sent or received it, else the wave |
| Auth.VerifyToken | server/src/middleware/auth.ts:52-66 | a token is accepted exactly when it starts with `user_` and splits on `_` into at least three parts; the id holds no `_` |
| Auth.VerifyTokenRebuilds | server/src/middleware/auth.ts:52-66 | an accepted token is exactly `user_` + id + `_` + email |
| Auth.VerifyTokenReads | server/src/middleware/auth.ts:52-66 | an id without `_` and any email are read back from their token |
| Auth.Authenticate | server/src/middleware/auth.ts:20-46 | missing or non-Bearer header, empty token and bad token give their three UNAUTHORIZED messages; success exactly for a Bearer header whose token verifies, as that user |
| Auth.AuthenticateReads | server/src/middleware/auth.ts:20-46 | a well-formed header authenticates as the user it names |
| App.GetProfile | server/src/app.ts:59-77 | NOT_FOUND "User not found" exactly when the caller has no row, else that row |
| App.UpdateProfileStep | server/src/app.ts:79-102 | NOT_FOUND for a missing caller, changing nothing; otherwise only the display name and `updatedAt` change |
| App.UpdateProfile | server/src/app.ts:79-102 | the store method agrees with `UpdateProfileStep` |
| App.CreateWorkspaceHandler | server/src/app.ts:120-143 | the new workspace is owned by the caller, with the caller's owner row; failure changes nothing |
| App.CreateWorkspace | server/src/app.ts:120-143 | the store method agrees with `CreateWorkspaceHandler` |
| App.GetWorkspaceHandler | server/src/app.ts:145-178 | success exactly for the owner or a member, with the workspace and its members; otherwise the membership error |
| App.DeleteWorkspaceHandler | server/src/app.ts:180-196 | only the owner deletes, and then it is the service's cascade; anyone else gets the owner check's error and no change |
| App.DeleteWorkspace | server/src/app.ts:180-196 | the store method agrees with `DeleteWorkspaceHandler` |
| App.TransferOwnershipHandler | server/src/app.ts:198-220 | only the owner transfers, and then it is the service's transfer from the caller; anyone else gets the owner check's error |
| App.TransferOwnership | server/src/app.ts:198-220 | the store method agrees with `TransferOwnershipHandler` |
| App.RemoveMemberHandlerAsWritten | server/src/app.ts:222-246 | as written: NOT_FOUND without the workspace; the owner, or anyone removing themselves, succeeds; others get FORBIDDEN |
| App.RemoveMemberAsWrittenDropsOwner | server/src/app.ts:232-243 | the owner removing themselves passes that check and leaves a workspace without an owner row |
| App.RemoveMemberHandler | server/src/app.ts:222-246 | with `requireCanRemoveMember` as the gate: success exactly when that check passes, removing the pair's row; failure changes nothing |
| App.RemoveMember | server/src/app.ts:222-246 | the store method agrees with `RemoveMemberHandler` |
| App.RemoveMemberHandlerKeepsOwners | server/src/services/authorization/authorization-service.ts:124-150 | the gated handler keeps owner consistency |
| App.CreateInviteHandler | server/src/app.ts:249-282 | only the owner creates invites, through the service; anyone else gets the owner check's error and no change |
| App.CreateInvite | server/src/app.ts:249-282 | the store method agrees with `CreateInviteHandler` |
| App.OwnerCreatesInvite | server/src/app.ts:249-282 | the owner always gets an invite when the generated code is new and `maxUses` fits the column |
| App.ListInvitesHandler | server/src/app.ts:284-308 | success exactly for the owner, with exactly the workspace's invites |
| App.AcceptInviteHandler | server/src/app.ts:311-334 | the service's outcome, answered with the workspace id and its name |
| App.AcceptInvite | server/src/app.ts:311-334 | the store method agrees with `AcceptInviteHandler` |
| App.AcceptedWorkspaceNamed | server/src/app.ts:311-334 | after a successful accept the answer names the invite's workspace by its stored name |
| App.DeleteInviteHandler | server/src/app.ts:336-361 | NOT_FOUND "Invite not found" before the owner check; only the workspace's owner deletes it |
| App.DeleteInvite | server/src/app.ts:336-361 | the store method agrees with `DeleteInviteHandler` |
| App.RouteKeepsOwners | server/src/app.ts:120-361 | every write route of the API keeps owner consistency |
| App.RouteKeepsUsesWithinLimit | server/src/app.ts:249-334 | every write route with a validated `maxUses` keeps every invite counter within its cap |
| Schemas.IsUuid | server/src/schemas/common.ts:30-32 | a uuid is 36 characters long, also in JavaScript's UTF-16 count, and holds no `_` |
| Schemas.Bounded | server/src/schemas/user.ts:25 | `min(1).max(n)` accepts only texts of 1 to `n` characters, and exactly those when no character is above U+FFFF |
| Schemas.AstralCharCountsTwice | server/src/schemas/user.ts:25 | one character above U+FFFF counts as two, so `max(1)` refuses it |
| Schemas.UuidTokenReads | server/src/middleware/auth.ts:52-66 | a uuid user id never holds `_`, so its bearer token always reads back to it |
| Schemas.RoleName | server/src/schemas/workspace.ts:6 | each role's name parses back to it |
| Schemas.ParseRole | server/src/schemas/workspace.ts:6 | exactly "owner" and "member" are roles, and they print back to themselves |
| Schemas.StatusName | server/src/schemas/wave.ts:5 | each status's name parses back to it |
| Schemas.ParseWaveStatus | server/src/schemas/wave.ts:5 | exactly the four status names are accepted, and they print back to themselves |
| Schemas.ParseRespondStatus | server/src/schemas/wave.ts:50-54 | a response accepts exactly "accepted" and "declined" |
| Schemas.ParseMaxUses | server/src/schemas/invite.ts:19-23 | absent or null means unlimited; a number is accepted exactly when it is at least 1 |
| Schemas.ValidatedInviteKeepsUsesWithinLimit | server/src/schemas/invite.ts:19-23 | an invite created from a validated body keeps every counter within its cap |
| Schemas.NegativeMaxUsesBreaksLimit | server/src/services/invite/invite-service.ts:25-37 | without the validator the service stores a negative cap beside a zero counter |
| Schemas.ParsePagination | server/src/schemas/common.ts:14-17 | limit 1..100 defaulting to 20, offset at least 0 defaulting to 0; NaN is refused |
| Schemas.PaginationReparses | server/src/schemas/common.ts:14-17 | parsed values parse to themselves |
| Schemas.ValidUpdateProfile | server/src/schemas/user.ts:23-27 | an accepted display name has 1 to the display-name limit characters |
| Schemas.ValidCreateWorkspace | server/src/schemas/workspace.ts:41-45 | an accepted workspace name has 1 to the workspace-name limit characters |
| Schemas.ValidTransferOwnership | server/src/schemas/workspace.ts:50-54 | an accepted new owner id is 36 characters with no `_` |
| Schemas.ValidSendWave | server/src/schemas/wave.ts:40-45 | accepted workspace and recipient ids are 36 characters, the recipient's with no `_` |
| Schemas.ValidMemberPath | server/src/schemas/workspace.ts:66-69 | accepted workspace and user ids are 36 characters, the user's with no `_` |
| Schemas.ValidatedUserIdsRead | server/src/schemas/workspace.ts:50-54 | every user id these validators accept reads back through its bearer token |
| Schemas.UserConforms | server/src/schemas/user.ts:5-13 | a conforming user has a 36-character id and a display name of 1 to the limit characters |
| Schemas.WorkspaceConforms | server/src/schemas/workspace.ts:11-18 | a conforming workspace has 36-character ids and a name of 1 to the limit characters |
| Schemas.UpdatedProfileConforms | server/src/schemas/user.ts:5-27 | a profile updated from a validated body conforms to the user schema |
| Schemas.CreatedWorkspaceConforms | server/src/schemas/workspace.ts:11-45 | a workspace created from a validated body conforms to the workspace schema |
| WaveQueue.Find | src/hooks/useWaveReceiver.ts:34 | found exactly when some queued wave has the id, and then the first such wave |
| WaveQueue.Without | src/hooks/useWaveReceiver.ts:37 | exactly the queued waves with another id remain |
| WaveQueue.WithoutAppend | src/hooks/useWaveReceiver.ts:37 | removal distributes over concatenation, so the waves that stay keep their order |
| WaveQueue.WithoutAbsent | src/hooks/useWaveReceiver.ts:37 | removing an id that is not queued changes nothing |
| WaveQueue.ReceiveThenRemove | src/hooks/useWaveReceiver.ts:22-41 | receiving a wave under a new id and answering it restores the queue |
| WaveQueue.Head | src/hooks/useWaveReceiver.ts:56 | the current wave is the oldest queued one, and there is one exactly when the queue is non-empty |
| WaveReceiver.Receiver.constructor | src/hooks/useWaveReceiver.ts:19 | the queue starts empty and no callback has run |
| WaveReceiver.Receiver.CurrentWave | src/hooks/useWaveReceiver.ts:56 | the oldest queued wave, absent exactly when the queue is empty |
| WaveReceiver.Receiver.WaveCount | src/hooks/useWaveReceiver.ts:66 | the queue's length |
| WaveReceiver.Receiver.ReceiveWave | src/hooks/useWaveReceiver.ts:22-29 | the wave gets the clock reading as id and timestamp and joins the tail; a shown wave stays shown |
| WaveReceiver.Receiver.AcceptWave | src/hooks/useWaveReceiver.ts:32-41 | a queued id calls `onAccept` once with its first wave and removes every wave with that id; an unknown id does nothing |
| WaveReceiver.Receiver.DeclineWave | src/hooks/useWaveReceiver.ts:44-53 | the same with `onDecline` |
| WaveReceiver.Receiver.ClearAll | src/hooks/useWaveReceiver.ts:59-61 | the queue empties and the callback logs are kept |
| RealtimeWaveReceiver.Enqueued | hooks/useWaveReceiver.ts:51-56 | the queued wave carries the event's ids; its sender name is the lookup's, or else the first eight characters of the sender id |
| RealtimeWaveReceiver.RealtimeReceiver.constructor | hooks/useWaveReceiver.ts:29-31 | the hook keeps its workspace and user, with an empty queue and no request sent |
| RealtimeWaveReceiver.RealtimeReceiver.OnWaveSent | hooks/useWaveReceiver.ts:34-60 | with a subscription, a wave to the current user joins the tail; every other event changes nothing |
| RealtimeWaveReceiver.RealtimeReceiver.AcceptWave | hooks/useWaveReceiver.ts:71-98 | an unknown id does nothing; a queued one sends "accepted" unless reading the session threw first, calls `onAccept` only when the request completed, and leaves the queue whatever happened |
| RealtimeWaveReceiver.RealtimeReceiver.DeclineWave | hooks/useWaveReceiver.ts:101-128 | the same, sending "declined" and calling `onDecline` |
| RealtimeWaveReceiver.RealtimeReceiver.ClearAll | hooks/useWaveReceiver.ts:134-136 | the queue empties; logs and requests are kept |
| UseCall.Call.constructor | src/hooks/useCall.ts:18-22 | idle, no participant, unmuted, duration 0, no timer pending |
| UseCall.Call.IsActive | src/hooks/useCall.ts:87 | active exactly while connecting or connected |
| UseCall.Call.StartCall | src/hooks/useCall.ts:25-39 | connecting with the participant, duration 0, unmuted, and one more connect timer pending |
| UseCall.Call.ConnectTimerFires | src/hooks/useCall.ts:33-36 | connected and ticking, `onCallStart` run once more, whatever happened since the start |
| UseCall.Call.Tick | src/hooks/useCall.ts:67-80 | while connected, the duration grows by one second and nothing else changes |
| UseCall.Call.EndCall | src/hooks/useCall.ts:42-59 | ended, not ticking, `onCallEnd` told the current duration, a reset timer pending; the connect timer is left pending |
| UseCall.Call.ResetTimerFires | src/hooks/useCall.ts:54-58 | idle, no participant, duration 0 |
| UseCall.Call.ToggleMute | src/hooks/useCall.ts:62-64 | the mute flag flips and nothing else changes |
| UseCall.EndWhileConnecting | src/hooks/useCall.ts:25-59 | starting and at once ending a call leaves the hook connected, ticking and active with no participant, after reporting a zero-length call |
| Presence.FirstPresences | src/hooks/usePresence.ts:93-103 | at most one member per presence key |
| Presence.ExtractMembers | src/hooks/usePresence.ts:96-100 | the loop pushes exactly the first presence of each non-empty list, in order |
| Presence.FirstPresencesCount | src/hooks/usePresence.ts:96-100 | one member per non-empty list and none for an empty one |
| Presence.FirstPresencesAreHeads | src/hooks/usePresence.ts:96-100 | a presence is returned exactly when it heads one of the lists |
| Presence.FirstPresencesAppend | src/hooks/usePresence.ts:96-100 | the result follows the order of the lists: extracting from two runs is extracting from each in turn |
| CallTimer.FormatDuration | src/components/features/call/CallTimer.tsx:8-12 | minutes, a colon, then two digits of seconds; exactly five characters below 100 minutes |
| CallTimer.TwoDigitsShape | src/components/features/call/CallTimer.tsx:11 | a padded part is at least two digits that read back to the number, exactly two below 100 |
| CallTimer.FormatDurationRoundTrip | src/components/features/call/CallTimer.tsx:8-12 | reading the text back as minutes times sixty plus seconds gives the duration |
| WaveHistory.Classify | src/components/features/wave/WaveHistory.tsx:18-30 | under a minute is "just now", under an hour whole minutes, under a day whole hours, otherwise the date; each count is the floor of the elapsed time |
| WaveHistory.HourFromMinutes | src/components/features/wave/WaveHistory.tsx:21-26 | flooring to minutes and then to hours is flooring to hours |
| WaveHistory.FormatTime | src/components/features/wave/WaveHistory.tsx:18-30 | under a minute the text is "たった今"; a day or more is the locale date |
| WaveHistory.RelativeTextReads | src/components/features/wave/WaveHistory.tsx:23-27 | within a day the text names its bucket and its count unambiguously |
| WaveHistory.ResultLabel | src/components/features/wave/WaveHistory.tsx:32-36 | every result has one of the three colours |
| WaveHistory.ResultOf | src/components/features/wave/WaveHistory.tsx:11 | the history has a result for every stored status except expired |
| WaveHistory.ResultLabelsDistinct | src/components/features/wave/WaveHistory.tsx:32-36 | different results get different texts and different colours |

## Left out

- Database I/O, the Supabase client, the realtime channel, `fetch` and the session lookup are not modelled. Tables are values, and the outcome of a request is a parameter.
- Concurrency is not modelled. The services read and then write without locks, so two requests can interleave between a check and its write. Every operation here runs alone, one after another.
- The clock, the six random bytes an invite code is generated from, fresh uuids and the locale date text are parameters.
- Ids are assumed to be uuids. The mock token parser accepts any id, and Postgres refuses a non-uuid value for a `uuid` column with an error that the error handler answers as 500 INTERNAL_ERROR. The model instead answers such an id as absent: not found, or not a member.
- The `LIMITS` constants are parameters: member limit, invite expiry in days and name lengths.
- Lists are returned as sets. The order of rows a query returns, and its pagination, are not modelled.
- The invite expiry is `now` plus whole days of 86 400 000 ms. Calendar arithmetic across a daylight-saving change is not modelled.
- zod's email and datetime formats are not modelled. Numbers are integers: fractional and string-coerced values outside that are not modelled.
- The wave routes of the API are not registered in `app.ts`. The wave service is modelled directly.
- The rollback branches of the transactions are kept, and their database errors are modelled as aborts.
- The shaping of JSON responses, beyond the error body, is not modelled.
- React rendering, component markup and styling are not modelled.
- The mock `acceptWave`/`declineWave` look up the wave in the render's snapshot but filter the latest queue. The model uses one queue, so a wave received between a render and the answer is not distinguished.
- The `useCall` timers are counted as pending events. The model does not capture the interval between them, only which may fire.
- `onCallStart`, `onCallEnd`, `onAccept` and `onDecline` are recorded as logs of their arguments.
- The logging of the error handler and the hooks is not modelled.
- WorkspaceService.GetWorkspacesByUserId: its own contract states only that every returned workspace has the user as a member. The converse is `WorkspaceRepository.FindByUserIdExactly`.
- InviteService.AcceptInviteStep: its own contract states only that a failure changes nothing. Its rejections and their order are stated by `AcceptInviteNotFound` and `AcceptInviteRejections`, when it succeeds by `AcceptInviteSucceeds`, and what a success writes by `AcceptInviteEffect`.
- Abilities.Can: its own contract states only that an empty rule list grants nothing. What a built rule list allows is stated by `CanIffPolicy`, and the reach of a "manage" rule by `ManageGrantsEveryAction`.
- Abilities.DefineAbilitiesFor: its own contract states only the closing "create a workspace" rule. The permissions it grants are stated by `CanIffPolicy` and the lemmas after it.
- AuthorizationService.BuildAbility: its own contract states only the case without a stored workspace. `BuildAbilityContext` states the context it builds otherwise.
- AuthorizationService.CanRespondToWave: its own contract states only that some wave rule is needed. Who may respond is stated by `WaveChecks`.
- AuthorizationService.CanReadWave: its own contract states only that some wave rule is needed. Who may read is stated by `WaveChecks`.
- Strings.Prefix: counts characters, whereas JavaScript's `slice` counts UTF-16 units. The two differ only for a user id holding a character above U+FFFF, which a uuid never does. The zod length checks count UTF-16 units through `Strings.Utf16Length`.

## Findings

| source | as written | input that shows it | evidently intended | confidence | as-written member | corrected member |
|---|---|---|---|---|---|---|
| server/src/app.ts:222-246 | the handler checks only "owner, or removing oneself" and never calls `requireCanRemoveMember`, so the owner may remove their own membership | user "u" owns workspace "w" and removes "u" from "w": the request succeeds, and "w" keeps `ownerId` "u" with no owner row | the owner can never be removed, as `requireCanRemoveMember` (authorization-service.ts:124-150) enforces | not executed | App.RemoveMemberAsWrittenDropsOwner | App.RemoveMemberHandlerKeepsOwners |
