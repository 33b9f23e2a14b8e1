# Verification of the switch abstraction layer

This project models the hardware-independent half of a switch abstraction layer: the software tables
behind its API calls, and what becomes of them when the NPU accepts or rejects each step. Every model
has the same three parts.

- A *specification*: a value type for the tables and one function per API call that says what the call
  computes, error branches included.
- A *class* whose fields are the tables and whose methods change them step by step, with the loops,
  early exits and roll-backs of the C code. Each method ensures that its result and the new tables are
  those of the specification.
- *Theorems* about the specification: when each call succeeds and what it leaves, in terms of the request and the
  tables before it (the modules named `Effects`); invariants over every call and every run, what a roll-back
  restores, which finite map an array stands for. Where the code does not meet a property
  unconditionally, the theorem gives the exact condition, in both directions.

The NPU is an arbitrary oracle `nat -> bool`: its n-th answer accepts or rejects the n-th call. A
rejected call changes nothing. Ids handed out by the NPU or by an id generator are parameters. Each API
call is one atomic step.

| area | files |
|---|---|
| QoS buffer pools, profiles and attachments | `QosBufferState` (tables, invariants), `QosBufferSpec` (calls), `QosBufferWalk` (pushing and undoing), `QosBuffer` (class), `QosBufferAttachments`, `QosBufferHolding`, `QosBufferRefs`, `QosBufferGap`, `QosBufferConservation`, `QosBufferPools`, `QosBufferSafety`, `QosBufferDirection`, `QosBufferHardware`, `QosBufferEffects`, `QosBufferTableEffects`, `QosBufferRuns`, `QosBufferExamples` |
| ACL rule modification | `AclCounterLink`, `AclRuleMerge`, `AclRuleUpdate` (theorems), `AclRule` (class) |
| ACL table, rule and counter ownership | `AclSpec`, `AclOwnership`, `AclSafety`, `AclEffects`, `AclTables` (class) |
| Bridges and bridge ports | `BridgeSpec`, `BridgeSafety`, `BridgeEffects`, `BridgeTables` (class) |
| Mirror sessions | `MirrorSpec`, `MirrorEffects`, `Mirror` (class) |
| Hash objects | `HashSpec`, `HashEffects`, `HashObjects` (class) |
| QoS maps | `QosMaps`, `QosMapEffects` |
| Host interface traps and trap groups | `TrapSpec`, `TrapEffects`, `Traps` (class) |

`dafny verify dfyconfig.toml` checks the whole project.

## Main results

- Every run of the buffer calls, whatever the NPU answers, keeps attachments, counts and directions exact and
  removes no pool or profile that is named (`QosBufferRuns.NothingDangles`); runs of exact steps conserve every
  pool's bytes (`QosBufferRuns.ConservedRun`, with the exact condition of a step in `QosBufferRuns.StepConserves`);
  runs without a rejected undo keep the NPU in agreement (`QosBufferRuns.SyncedRun`), and every run keeps the default
  setting for objects without a profile (`QosBufferRuns.DefaultsRun`).
- Pushing an attribute is undone exactly when no undo call is refused (`QosBufferWalk.PushRejected`); admission is
  sound (`QosBufferSafety.ProfileAdmissionSound`, `QosBufferSafety.AttachAdmissionSound`); the 32-bit shared size is
  exact below 2^31 (`QosBufferPools.SharedSizeExact`).
- Merging a delta into an ACL rule is overriding one finite map by another (`AclRuleMerge.MergeOverrides`); a rule set
  does so if and only if its counter can be linked (`AclRuleUpdate.SetOverrides`), in every reachable state
  (`AclOwnership.SetAfterRun`).
- ACL tables count their rules and counters over every run (`AclOwnership.RunOwned`, `AclOwnership.TablesFound`);
  counters are shared exactly over every run that loses none (`AclSafety.RunValid`, with the exact condition of a step
  in `AclSafety.StepValid`).
- Bridge counts and indexes are exact over every run in which failed removals are restored (`BridgeSafety.RunValid`,
  `BridgeSafety.StepValid`); failed creates leave no trace (`BridgeSafety.FailedCreateRestores`).
- Mirror indexes are inverse in every state between calls (`MirrorSpec.RunConsistent`); a successful update leaves
  exactly the requested sessions (`MirrorSpec.HandleEffect`).
- Hash slots, counts, ids and hardware fields agree over every run (`HashObjects.RunExact`).
- A queue map array is a finite map and an update its override (`QosMaps.IndexBijection`, `QosMaps.StoreRefines`,
  `QosMaps.QueueReconstructed`).
- Every trap is in exactly the list of the group it names, over every run (`TrapSpec.RunValid`).
- Each call has its exact condition of success and its effect, stated without the functions that compute them: a
  threshold of the wanted kind and the value in every attached object's setting (`QosBufferEffects.StaticThresholdSet`,
  `QosBufferEffects.SetProfilePushes`), attaching and detaching (`QosBufferEffects.AttachSucceeds`,
  `QosBufferEffects.SetObjectEffect`), the rule, bridge port, group or map that was asked for
  (`AclEffects.CreateRuleEffect`, `BridgeEffects.ValidatedIff`, `TrapEffects.SetTrapEffect`,
  `QosMapEffects.QueueUpdate`), the hash object bound to a slot (`HashEffects.BindEffect`).

## What the code does not promise

These are the places where a natural property fails, each with its exact condition among the theorems and with
an input on which it fails.

- A profile create that the NPU rejects leaves its freed node linked to the pool (`QosBufferRefs.CreateProfileRefs`;
  input: `QosBufferExamples.RejectedCreateStaysLinked`).
- A rejected undo call leaves a new value in the NPU (`QosBufferWalk.PushRejected`, `QosBufferHardware.SetProfileSynced`;
  inputs: `QosBufferWalk.RejectedUndoLeavesNewValue`, `QosBufferExamples.RefusedUndoBreaksSync`).
- Conservation is lost when a 32-bit product or sum wraps, when the NPU rejects a size rewrite whose status is
  ignored, when a profile with an XOFF threshold moves between pools that disagree on having an XOFF size, and when a
  pool of more than 2^31 bytes shrinks too far (`QosBufferConservation.AttachConserves`,
  `QosBufferConservation.SetProfileConserves`, `QosBufferPools.ResizePoolConserves`; inputs:
  `QosBufferExamples.OverflowingAttachSucceeds`, `QosBufferExamples.RejectedRewriteForgetsCharge`,
  `QosBufferExamples.OverflowingResizeSucceeds`, `QosBufferExamples.MoveIntoXoffPoolOvercharges`,
  `QosBufferExamples.ShrinkingAHugePoolSucceeds`).
- An ACL delta that enables an empty list over an existing one leaves the old list in place; the parser never builds
  such a delta (`AclRuleMerge.MergeOverrides`, `AclRuleMerge.PopulatedOverrides`; input: `AclRuleMerge.EmptyListKept`).
- An ACL rule set reports success although its counter could not be linked and its actions were not overridden
  (`AclRuleUpdate.SetOverrides`, `AclRuleUpdate.SetPartly`; input: `AclRuleUpdate.SetLosesAction`).
- A rule names a counter it is not attached to when attaching fails after the old counter was detached; a rule create
  that fails at the policer keeps its counter shared; a rejected delete can lose the counter it detached
  (`AclSafety.SetRuleValid`, `AclSafety.CreateRuleValid`, `AclSafety.DeleteRuleValid`; inputs:
  `AclSafety.LostCounterDangles`, `AclSafety.RejectedCreateLeaksCounter`, `AclSafety.RejectedDeleteLosesCounter`).
- A bridge port whose removal fails late is lost from the counts when the NPU re-creates it under another id
  (`BridgeSafety.FailedRemoveRestores`; input: `BridgeSafety.RecreatedElsewhere`).
- A hash object set that fails at one slot leaves the new fields at an earlier one when the NPU refuses to restore it
  (`HashSpec.SetAttrKeepsHw`; input: `HashSpec.RefusedRestoreLeavesFields`).
- A queue map update renumbers the caller's list, so that applying the same list twice is not the same as applying it
  once (`QosMaps.ListKeptIff`; input: `QosMaps.SecondUpdateDiffers`).
- A trap group created without a queue is checked against the default queue but stored with queue 0
  (`TrapSpec.CreateQueues`; input: `TrapSpec.DefaultQueueClashes`).

## Model

| member | source | states |
|---|---|---|
| QosBufferWalk.PushAccepted | src/qos/sai_qos_buffer.c:618-771 | a push to the attached objects succeeds exactly when the NPU accepts every call, and then exactly the targets hold the new value |
| QosBufferWalk.PushRejected | src/qos/sai_qos_buffer.c:618-771 | after a rejected push every setting is back to its old value if and only if no undo call, counted from the first refusal, is refused, or the value was not new |
| QosBufferWalk.PushLoses | src/qos/sai_qos_buffer.c:618-771 | when an undo call is rejected, some target keeps the new value |
| QosBufferWalk.UndoEffect | src/qos/sai_qos_buffer.c:618-701 | the undo walks write exactly the objects before the failing one, and miss one exactly when an undo call is rejected |
| QosBufferWalk.RejectedUndoLeavesNewValue | src/qos/sai_qos_buffer.c:618-771 | two ports on which a rejected undo leaves the first with the new size |
| QosBuffer.BufferTables.UpdatePoolNode | src/qos/sai_qos_buffer_common.c:176-223 | attributes are stored in order up to the first bad one; an XOFF size for an egress pool is refused wherever it stands |
| QosBuffer.BufferTables.CreatePool | src/qos/sai_qos_buffer.c:82-174 | the new pool, its shared size and the status are those of the specification, error branches included |
| QosBuffer.BufferTables.RemovePool | src/qos/sai_qos_buffer.c:176-216 | a pool without references is removed once the NPU agrees |
| QosBuffer.BufferTables.SetPool | src/qos/sai_qos_buffer.c:218-317 | a resize changes size and shared size together, or nothing |
| QosBuffer.BufferTables.Recalc | src/qos/sai_qos_buffer.c:570-616 | a charge or credit of the shared size, taken back when the NPU rejects the rewrite |
| QosBuffer.BufferTables.CheckMandatoryTh | src/qos/sai_qos_buffer_common.c:612-686 | a new profile names an existing pool and exactly the threshold kind its mode, or the mode of its pool, asks for |
| QosBuffer.BufferTables.CheckPfc | src/qos/sai_qos_buffer_common.c:688-720 | a PFC threshold needs an ingress pool |
| QosBuffer.BufferTables.UpdateProfileNode | src/qos/sai_qos_buffer_common.c:247-315 | storing attributes in a profile node, moving it between pool lists |
| QosBuffer.BufferTables.CreateProfile | src/qos/sai_qos_buffer.c:418-480 | the node is linked before the NPU is asked and stays linked when it rejects |
| QosBuffer.BufferTables.RemoveProfile | src/qos/sai_qos_buffer.c:482-522 | an unused profile leaves its pool list and the table |
| QosBuffer.BufferTables.UpdateList | src/qos/sai_qos_buffer.c:618-645 | one walk: accepted objects get the value, the walk ends at the first rejection or at the stop object |
| QosBuffer.BufferTables.PushAll | src/qos/sai_qos_buffer.c:703-771 | ports, then queues, then priority groups, with the undo walks in the code's order |
| QosBuffer.BufferTables.PushPfc | src/qos/sai_qos_buffer.c:703-771 | PFC thresholds are pushed to priority groups only |
| QosBuffer.BufferTables.UpdateProfileObjects | src/qos/sai_qos_buffer.c:703-771 | the node is stored only after the push succeeded |
| QosBuffer.BufferTables.CheckBufferSize | src/qos/sai_qos_buffer.c:773-857 | the 32-bit amount, its sign and the availability check for each attribute |
| QosBuffer.BufferTables.SetProfile | src/qos/sai_qos_buffer.c:891-963 | checks, push, node, and then the charges whose status is ignored |
| QosBuffer.BufferTables.UpdateObjectNode | src/qos/sai_qos_buffer_common.c:373-475 | moving an object between the lists and counts of two profiles |
| QosBuffer.BufferTables.SetObject | src/qos/sai_qos_buffer.c:997-1100 | attaching, detaching and moving a port, queue or priority group |
| QosBufferAttachments.RelinkedProfile | src/qos/sai_qos_buffer_common.c:373-475 | relinking changes the attachments of one object and nothing else |
| QosBufferAttachments.StepAttachments | src/qos/sai_qos_buffer.c:82-1100 | every call, late failing creates and rejected walks included, keeps a profile's lists and count exactly the objects naming it |
| QosBufferAttachments.RunAttachments | src/qos/sai_qos_buffer.c:82-1100 | so does every run, whatever the NPU answers |
| QosBufferAttachments.ProfileCountExact | src/qos/sai_qos_buffer_common.c:373-475 | a profile's count is the number of ports, queues and priority groups naming it |
| QosBufferHolding.StepHeld | src/qos/sai_qos_buffer_common.c:84-315 | every call, whatever the NPU answers, keeps each pool that a profile names, in whose list the profile is |
| QosBufferRefs.CreatePoolRefs | src/qos/sai_qos_buffer.c:82-174 | both levels of reference counts stay exact over a pool create |
| QosBufferRefs.RemovePoolRefs | src/qos/sai_qos_buffer.c:176-216 | and over a pool remove: no profile names a removed pool |
| QosBufferRefs.SetPoolRefs | src/qos/sai_qos_buffer.c:218-317 | and over a resize, accepted or not |
| QosBufferRefs.CreatedNode | src/qos/sai_qos_buffer.c:418-480 | a create that passes its checks has linked a fresh, unattached node to exactly the pool it names |
| QosBufferRefs.CreateProfileRefs | src/qos/sai_qos_buffer.c:418-480 | a profile create keeps the references exact if and only if the NPU does not reject it after the node was linked |
| QosBufferRefs.RemoveProfileRefs | src/qos/sai_qos_buffer.c:482-522 | a removed profile is in no list and named by no object |
| QosBufferRefs.SetProfileRefs | src/qos/sai_qos_buffer.c:891-963 | a set, pool moves included, keeps the references exact, accepted or not |
| QosBufferRefs.MovedPool | src/qos/sai_qos_buffer_common.c:247-315 | a move takes the profile out of one list, puts it into another, and keeps counts equal to lengths |
| QosBufferRefs.SetObjectRefs | src/qos/sai_qos_buffer.c:997-1100 | attaching, detaching and moving objects keep the references exact |
| QosBufferRefs.PoolCountExact | src/qos/sai_qos_buffer_common.c:84-138 | a pool's count is the number of profiles naming it |
| QosBufferGap.RelinkedGap | src/qos/sai_qos_buffer.c:997-1100 | moving an object shifts the balance of two pools by exactly the two per-object reservations |
| QosBufferGap.MovedGap | src/qos/sai_qos_buffer_common.c:247-315 | a pool move takes the profile's charge along, at the rule of the pool entered |
| QosBufferConservation.ChargeFits | src/qos/sai_qos_buffer.c:570-616 | in a conserved pool what a profile reserves, added to the shared bytes, cannot overflow |
| QosBufferConservation.AttachConserves | src/qos/sai_qos_buffer.c:997-1100 | attaching, detaching or moving conserves every pool if and only if the rewrites that move bytes are accepted and one reservation fits in 32 bits |
| QosBufferConservation.SetProfileConserves | src/qos/sai_qos_buffer.c:773-963 | a profile set conserves every pool if and only if the product fits and the rewrites are accepted, and a move changes no XOFF rule that matters |
| QosBufferConservation.MoveBetweenLikePools | src/qos/sai_qos_buffer.c:773-857 | with all rewrites accepted, a move is exact if and only if nothing is attached, no XOFF is reserved, or the pools agree on having an XOFF size |
| QosBufferConservation.FirstRewriteCall | src/qos/sai_qos_buffer.c:942-956 | the rewrite of the pool follows the size check and one call per attached object concerned |
| QosBufferPools.SharedCongruent | src/qos/sai_qos_buffer_common.c:140-174 | the mixed signed and unsigned computation equals the exact sum modulo 2^32, and equals it just when it fits |
| QosBufferPools.SharedSizeExact | src/qos/sai_qos_buffer_common.c:140-174 | with sizes below 2^31 the new shared size is exact, and the request is refused exactly when it would be negative |
| QosBufferPools.CreatePoolConserves | src/qos/sai_qos_buffer.c:82-174 | a new pool shares exactly what it has, for every size |
| QosBufferPools.ResizePoolConserves | src/qos/sai_qos_buffer.c:218-317 | a resize conserves the pool if and only if the exact new shared size is not below -2^31 |
| QosBufferPools.RemovePoolConserves | src/qos/sai_qos_buffer.c:176-216 | removing a pool leaves the others conserved |
| QosBufferPools.CreateProfileConserves | src/qos/sai_qos_buffer.c:418-480 | a new profile reserves nothing, even when its create fails late |
| QosBufferPools.RemoveProfileConserves | src/qos/sai_qos_buffer.c:482-522 | removing an unused profile moves no bytes |
| QosBufferSafety.RejectedUnchanged | src/qos/sai_qos_buffer.c:942-956 | a request that does not succeed changes no pool, profile, list or count, if and only if it is not a late failing create |
| QosBufferSafety.ProfileAdmissionSound | src/qos/sai_qos_buffer.c:942-956 | after the checks of a set, the recalculations whose status is ignored never report a shortage |
| QosBufferSafety.AttachAdmissionSound | src/qos/sai_qos_buffer.c:965-1098 | the same for attaching |
| QosBufferDirection.CreateProfileDirected | src/qos/sai_qos_buffer_common.c:688-720 | a new profile on an egress pool has no PFC threshold |
| QosBufferDirection.SetProfileDirected | src/qos/sai_qos_buffer_common.c:533-610 | thresholds and pool moves keep ports and priority groups on ingress pools, queues on egress pools |
| QosBufferDirection.SetObjectDirected | src/qos/sai_qos_buffer_common.c:503-531 | so does attaching |
| QosBufferDirection.ObjectDirection | src/qos/sai_qos_buffer_common.c:503-531 | a port or priority group uses an ingress pool, a queue an egress pool |
| QosBufferHardware.SetProfileSynced | src/qos/sai_qos_buffer.c:703-771 | a set keeps the NPU in agreement with the profiles if and only if no undo call is rejected |
| QosBufferHardware.SetObjectSynced | src/qos/sai_qos_buffer.c:997-1100 | attaching keeps it |
| QosBufferHardware.LeftoverBreaksSync | src/qos/sai_qos_buffer.c:703-771 | the value a rejected undo leaves behind is not what the profile says |
| QosBufferEffects.SetProfileSucceeds | src/qos/sai_qos_buffer.c:891-963 | a set succeeds exactly when its checks pass and the NPU accepts one call for each target |
| QosBufferEffects.StaticThresholdSet | src/qos/sai_qos_buffer_common.c:572-600 | a static threshold can be set exactly when the profile has the static mode, or none of its own and a pool with the static mode, and the NPU accepts it for each attached object |
| QosBufferEffects.DynamicThresholdSet | src/qos/sai_qos_buffer_common.c:572-600 | a dynamic threshold, correspondingly, with the dynamic mode |
| QosBufferEffects.ThresholdRefused | src/qos/sai_qos_buffer.c:866-873 | a threshold of the other kind is an invalid attribute, and nothing changes |
| QosBufferEffects.ModeSet | src/qos/sai_qos_buffer.c:891-963 | the mode can always be set, without an NPU call |
| QosBufferEffects.XonSet | src/qos/sai_qos_buffer.c:859-889 | an XON threshold needs an ingress pool and the NPU, once for each priority group |
| QosBufferEffects.SizeSet | src/qos/sai_qos_buffer.c:794-818 | a size that grows needs the 32-bit product of count and growth in the shared bytes, and one NPU call more |
| QosBufferEffects.XoffSet | src/qos/sai_qos_buffer.c:820-857 | an XOFF threshold reserves bytes only in a pool without an XOFF size, and needs an ingress pool |
| QosBufferEffects.PoolIdSet | src/qos/sai_qos_buffer.c:773-889 | a profile moves to a pool of its direction, and of its mode unless it has its own, that shares the 32-bit product of its count and bytes |
| QosBufferEffects.SetProfileRefused | src/qos/sai_qos_buffer.c:891-963 | an unknown attribute or profile is refused, and nothing changes |
| QosBufferEffects.SetProfileStores | src/qos/sai_qos_buffer_common.c:247-315 | a successful set changes the one member of the one profile |
| QosBufferEffects.SetProfilePushes | src/qos/sai_qos_buffer.c:703-771 | every attached object (for PFC thresholds, every attached priority group) has the new value in the NPU, and no other setting changed |
| QosBufferEffects.SetObjectEffect | src/qos/sai_qos_buffer.c:1042-1082 | after an attach the NPU holds the values of the profile, after a detach the default setting; no other object changed |
| QosBufferEffects.DetachSucceeds | src/qos/sai_qos_buffer.c:965-995 | only the NPU can refuse a detach |
| QosBufferEffects.AttachSucceeds | src/qos/sai_qos_buffer.c:965-1082 | an attach succeeds exactly when side, shared bytes and, between two pools, direction and mode fit, and the NPU accepts |
| QosBufferEffects.AttachRefused | src/qos/sai_qos_buffer.c:1014-1069 | why an attach is refused: unknown object or profile, wrong side, too few shared bytes, or the NPU |
| QosBufferEffects.PushKeepsOthers | src/qos/sai_qos_buffer.c:703-771 | a push, undone or not, changes only the settings of its targets |
| QosBufferEffects.StepDefaults | src/qos/sai_qos_buffer.c:997-1100 | every call, whatever the NPU answers, keeps the default setting for objects without a profile |
| QosBufferTableEffects.CreatePoolEffect | src/qos/sai_qos_buffer.c:82-174 | a pool is created exactly when its attributes can be set, its XOFF size fits, and what remains is below 2^31; it has the values given last and shares what remains |
| QosBufferTableEffects.RemovePoolEffect | src/qos/sai_qos_buffer.c:176-216 | a pool goes exactly when no profile names it and the NPU accepts |
| QosBufferTableEffects.SetPoolEffect | src/qos/sai_qos_buffer.c:218-317 | only size and XOFF size can be set; the new shared size is the 32-bit sum, and is refused from 2^31 on |
| QosBufferTableEffects.CreateProfileEffect | src/qos/sai_qos_buffer.c:418-480 | a profile is created exactly when it names a pool, has a threshold of the wanted kind and none of the other, and PFC thresholds only on an ingress pool; it has the values given |
| QosBufferTableEffects.CreateProfileRefused | src/qos/sai_qos_buffer.c:418-480 | without a pool there is no profile, and nothing changes |
| QosBufferTableEffects.RemoveProfileEffect | src/qos/sai_qos_buffer.c:482-522 | a profile goes exactly when no object names it and the NPU accepts; it leaves its pool's list |
| QosBufferRuns.StepRefs | src/qos/sai_qos_buffer_common.c:109-138 | each call keeps both levels of counts exact, if and only if it is not a late failing create |
| QosBufferRuns.StepDirected | src/qos/sai_qos_buffer_common.c:503-610 | each call keeps directions safe |
| QosBufferRuns.StepConserves | src/qos/sai_qos_buffer.c:570-1100 | each call conserves every pool if and only if the bytes it moves fit and arrive |
| QosBufferRuns.StepSynced | src/qos/sai_qos_buffer.c:618-771 | each call keeps the NPU in agreement if and only if no undo call is rejected |
| QosBufferRuns.SafeRun | src/qos/sai_qos_buffer.c:82-1100 | over every run, late failing creates included, each profile keeps its pool, attachments and counts stay exact, and directions hold |
| QosBufferRuns.RefsRun | src/qos/sai_qos_buffer.c:82-1100 | over every run without a late failing create, the lists of the pools are exactly the profiles naming them |
| QosBufferRuns.ConservedRun | src/qos/sai_qos_buffer.c:570-1100 | over every run of exact steps, shared plus reserved bytes equal size minus XOFF size in every pool |
| QosBufferRuns.SyncedRun | src/qos/sai_qos_buffer.c:618-771 | over every run without a rejected undo, late failing creates included, the NPU holds what the profiles say |
| QosBufferRuns.DefaultsRun | src/qos/sai_qos_buffer.c:1042-1082 | over every run, rejected undos included, the NPU has the default setting for each object without a profile |
| QosBufferRuns.NothingDangles | src/qos/sai_qos_buffer.c:176-216 | from empty tables and whatever the NPU answers, nothing ever names a removed pool or profile or sits on the wrong side, each profile's count is the number of objects naming it, and an object without a profile has the default setting |
| QosBufferRuns.NeverOvercommitted | src/qos/sai_qos_buffer.c:570-1100 | from empty tables, no pool ever reserves more than it has |
| QosBufferExamples.ShrinkingAHugePoolSucceeds | src/qos/sai_qos_buffer_common.c:140-174 | an exact, fully reserved pool of 0xF0000000 bytes can be shrunk to 16 |
| QosBufferExamples.OverflowingResizeSucceeds | src/qos/sai_qos_buffer.c:773-857 | two ports at 2^31 bytes: the product wraps to 0 and the set succeeds on a pool of 100 bytes |
| QosBufferExamples.MoveIntoXoffPoolOvercharges | src/qos/sai_qos_buffer.c:773-857 | a move into a pool with its own XOFF size charges 8 bytes where 5 are needed |
| QosBufferExamples.RejectedCreateStaysLinked | src/qos/sai_qos_buffer.c:418-480 | a pool goes on listing a profile that the NPU rejected |
| QosBufferExamples.OverflowingAttachSucceeds | src/qos/sai_qos_buffer.c:965-1098 | a size and an XOFF threshold of 2^31 bytes each reserve 2^32 bytes of a pool of 100 |
| QosBufferExamples.RejectedRewriteForgetsCharge | src/qos/sai_qos_buffer.c:570-616 | a port is attached, the rewrite of its pool rejected, and its 10 bytes are never charged |
| QosBufferExamples.RefusedUndoBreaksSync | src/qos/sai_qos_buffer.c:703-771 | after a rejected undo the NPU holds a size that no profile has |
| AclRule.UpdateObjectList | src/acl/sai_acl_rule_utils.c:686-787 | an object list is freed when disabled, replaced when enabled and not empty, and otherwise left |
| AclRule.UpdateByteList | src/acl/sai_acl_rule_utils.c:576-684 | both lists are freed, replaced or left, for byte counts of every combination; a rule with only one of the two is refused |
| AclRule.MarkList | src/acl/sai_acl_rule_utils.c:499-574 | every delta entry is marked as changed or new against the rule, and the new ones are counted |
| AclRule.MarkEntry | src/acl/sai_acl_rule_utils.c:499-574 | one delta entry is a change of the entry with its key, or new |
| AclRule.Rule.PatchFields | src/acl/sai_acl_rule_utils.c:1032-1095 | the marked field changes are copied into the existing fields |
| AclRule.Rule.PatchOneAction | src/acl/sai_acl_rule_utils.c:1097-1135 | one marked action change, relinking the counter before it is copied |
| AclRule.Rule.PatchActionList | src/acl/sai_acl_rule_utils.c:1097-1135 | the marked action changes, stopping when the counter cannot be linked |
| AclRule.Rule.AppendFields | src/acl/sai_acl_rule_utils.c:789-873 | the larger array holds the old fields followed by the new ones; no index leaves it |
| AclRule.Rule.AppendActionList | src/acl/sai_acl_rule_utils.c:952-1030 | the same for actions; when the counter cannot be linked the old actions stay |
| AclRule.Rule.AddNewActions | src/acl/sai_acl_rule_utils.c:952-1030 | new actions are written one behind the other, and no index leaves the array |
| AclRule.Rule.UpdateCounterAction | src/acl/sai_acl_rule_utils.c:875-950 | detach, attach or both, with the new id stored before the attach |
| AclCounterLink.RelinksExact | src/acl/sai_acl_rule_utils.c:875-950 | relinking succeeds exactly when what must be detached is there, in the rule's table, and accepted, and what must be attached is there and accepted |
| AclCounterLink.RelinkFailsAtNpuOnly | src/acl/sai_acl_rule_utils.c:875-950 | with counters in the rule's own table, only the NPU can make it fail |
| AclRule.Rule.UpdateFieldAction | src/acl/sai_acl_rule_utils.c:1032-1171 | changes first, then new entries, with the early exits |
| AclRule.Rule.ScanAndModify | src/acl/sai_acl_rule.c:865-953 | mark, ask the NPU, merge; the status of the merge is dropped |
| AclRuleMerge.PatchAllAt | src/acl/sai_acl_rule_utils.c:1032-1095 | an entry is patched by the one delta entry with its key, if that is marked as changed |
| AclRuleMerge.NewEntriesLookup | src/acl/sai_acl_rule_utils.c:789-873 | the new entry for a key is made from the one delta entry with it, if that is marked as new |
| AclRuleMerge.MergedLookup | src/acl/sai_acl_rule_utils.c:499-1171 | what a merged list says about a key depends only on what the rule and the delta say about it |
| AclRuleMerge.MergeOverrides | src/acl/sai_acl_rule_utils.c:499-1171 | merging is overriding one finite map by another, if and only if no delta list is enabled but empty where the rule has one, or disabled but not empty, or differs from the rule in an object list mask |
| AclRuleMerge.EmptyListKept | src/acl/sai_acl_rule_utils.c:576-684 | a byte list enabled without bytes leaves the rule's bytes in place |
| AclRuleMerge.PopulatedOverrides | src/acl/sai_acl_rule_utils.c:1300-1455 | what the attribute parser builds always satisfies that condition |
| AclRuleMerge.MergeKeepsOrder | src/acl/sai_acl_rule_utils.c:789-873 | old order is kept, missing keys are appended in the delta's order |
| AclRuleMerge.MergeKeepsKeysDistinct | src/acl/sai_acl_rule_utils.c:499-1171 | keys stay distinct |
| AclRuleMerge.MergeKeepsWellFormed | src/acl/sai_acl_rule_utils.c:499-1171 | no change or new mark remains, and data and mask keep equal byte counts |
| AclRuleMerge.PatchOverrides | src/acl/sai_acl_rule_utils.c:1032-1095 | patching without appending is overriding the keys the rule already has |
| AclRuleUpdate.UpdateMerges | src/acl/sai_acl_rule_utils.c:1032-1171 | an update in which the counter was linked has merged both lists |
| AclRuleUpdate.UpdateLink | src/acl/sai_acl_rule_utils.c:875-1171 | the counter is relinked once when the counter action changes and otherwise left alone |
| AclRuleUpdate.CounterMatchesAction | src/acl/sai_acl_rule_utils.c:875-950 | after a set the rule's counter id is the object of its enabled counter action, or 0, if and only if the set did not fail while attaching a new counter |
| AclRuleUpdate.SetOverrides | src/acl/sai_acl_rule.c:865-953 | a rule set that the NPU accepts overrides the actions by the delta if and only if the counter can be linked; then the fields are overridden too, in order and without marks; a rejected set leaves the rule |
| AclRuleUpdate.SetPartly | src/acl/sai_acl_rule.c:865-953 | what a set that reports success leaves behind when the counter cannot be linked: the changes of fields, the action changes before the counter action, and the new fields only if that action was new |
| AclRuleUpdate.SetLosesAction | src/acl/sai_acl_rule.c:865-953 | a rule without actions set to count: success, no action, and a counter id that is not attached |
| HashObjects.HashTables.constructor | src/hash/sai_hash_obj.c:924-1003 | no object, no bound slot, every id free |
| HashObjects.HashTables.SetFields | src/hash/sai_hash_obj.c:302-344 | lists are stored in order up to the first invalid UDF group list |
| HashObjects.HashTables.CreateObject | src/hash/sai_hash_obj.c:346-434 | the lowest free id is taken, or none |
| HashObjects.HashTables.RemoveObject | src/hash/sai_hash_obj.c:436-506 | an unused object is removed and its id freed |
| HashObjects.HashTables.SetInHw | src/hash/sai_hash_obj.c:508-592 | the slots of the object are written, and rewritten up to the failing one; the status is assigned before it is read |
| HashObjects.HashTables.RestoreSlots | src/hash/sai_hash_obj.c:570-589 | the restore loop touches exactly the object's slots before the failing one |
| HashObjects.HashTables.SetAttr | src/hash/sai_hash_obj.c:594-684 | hardware first, then the node |
| HashObjects.HashTables.BindSlot | src/hash/sai_hash_obj.c:1005-1089 | the slot, the fields in the NPU and both reference counts change together |
| HashSpec.WriteEffect | src/hash/sai_hash_obj.c:537-562 | every slot of the object before the stop holds the new fields, the others are as before |
| HashSpec.RestoreEffect | src/hash/sai_hash_obj.c:570-589 | the restore puts the old fields back exactly when no call is refused |
| HashSpec.WriteCalls | src/hash/sai_hash_obj.c:537-562 | the k-th slot of an object is written by the k-th call, and the walk stops at the first refusal |
| HashSpec.FailedSetRestores | src/hash/sai_hash_obj.c:508-592 | a failed set leaves the NPU as it was if and only if no restoring call, counted from the first refusal, is refused |
| HashSpec.UsedObjectIsWritten | src/hash/sai_hash_obj.c:537-569 | when a used object is written some slot matches |
| HashSpec.CreateKeepsTables | src/hash/sai_hash_obj.c:346-434 | counts, slots and bitmap stay exact over a create |
| HashSpec.CreateIds | src/hash/sai_hash_obj.c:346-434 | a create runs out of ids exactly when all 256 are taken, and never reuses one |
| HashSpec.RemoveKeepsTables | src/hash/sai_hash_obj.c:436-506 | a remove succeeds if and only if the object exists and no slot is bound to it |
| HashSpec.BindKeepsTables | src/hash/sai_hash_obj.c:1005-1089 | reference counts stay the number of bound slots, and the bound slot holds its object's fields |
| HashSpec.SetAttrKeepsTables | src/hash/sai_hash_obj.c:594-684 | an object set moves no reference |
| HashSpec.SetAttrKeepsHw | src/hash/sai_hash_obj.c:508-684 | each bound slot holds its object's fields after a set, if and only if no restoring call is rejected |
| HashSpec.RefusedRestoreLeavesFields | src/hash/sai_hash_obj.c:570-589 | two slots on which a refused restore leaves the new fields |
| HashEffects.BindEffect | src/hash/sai_hash_obj.c:1005-1089 | a bind succeeds exactly when the object exists, or is none, and the NPU accepts; the slot has it, the NPU its fields, and no other slot or field changed |
| HashEffects.BindCounts | src/hash/sai_hash_obj.c:1049-1072 | the object that had the slot counts one less, the one that has it one more |
| HashEffects.FieldGiven | src/hash/sai_hash_obj.c:302-344 | of several lists of one kind the last one is kept |
| HashEffects.CreateEffect | src/hash/sai_hash_obj.c:346-434 | a create succeeds exactly when an id is free and every UDF group is one; the object has the lists given last and no slot |
| HashEffects.RemoveEffect | src/hash/sai_hash_obj.c:436-506 | a removed object is gone and its id free |
| HashEffects.SetAttrEffect | src/hash/sai_hash_obj.c:594-684 | a set succeeds exactly when the NPU accepts it for each bound slot; object and slots have the list given |
| HashObjects.StepExact | src/hash/sai_hash_obj.c:346-1089 | all of this for every call |
| HashObjects.RunExact | src/hash/sai_hash_obj.c:346-1089 | over every run counts, slots and ids are exact, and the NPU too if no restoring call was refused |
| Mirror.MirrorTables.CreateSession | src/mirroring/sai_mirror_common.c:291-398 | a session starts without source ports |
| Mirror.MirrorTables.RemoveSession | src/mirroring/sai_mirror_common.c:400-461 | removal is refused while source ports remain |
| Mirror.MirrorTables.SessionPortAdd | src/mirroring/sai_mirror_common.c:463-557 | a source port is added once the NPU accepts it |
| Mirror.MirrorTables.SessionPortRemove | src/mirroring/sai_mirror_common.c:559-639 | and removed once the NPU accepts that |
| Mirror.MirrorTables.DropUnwanted | src/mirroring/sai_mirror_port.c:40-122 | the walk that removes nodes from the tree it is walking does what a walk over a copy would do, and ends |
| Mirror.MirrorTables.HandlePort | src/mirroring/sai_mirror_port.c:124-217 | adds, then removals, stopping at the first error |
| Mirror.StepAhead | src/mirroring/sai_mirror_port.c:72-112 | the next larger key is the same whether or not the current node was removed |
| MirrorSpec.AddOneEffect | src/mirroring/sai_mirror_port.c:160-205 | one add touches one pair in both indexes and never meets an existing one |
| MirrorSpec.DropOneEffect | src/mirroring/sai_mirror_common.c:559-639 | one removal touches one pair in both indexes and never misses it |
| MirrorSpec.HandleEffect | src/mirroring/sai_mirror_port.c:40-217 | the indexes stay inverse whatever happens; a successful update leaves exactly the requested sessions in that direction, a partial one loses none requested and gains none other |
| MirrorSpec.HandleSucceeds | src/mirroring/sai_mirror_port.c:124-217 | when the NPU rejects nothing, an update succeeds if and only if all requested sessions exist |
| MirrorSpec.CreateConsistent | src/mirroring/sai_mirror_common.c:291-398 | a new session is named by no port, and the indexes stay inverse |
| MirrorSpec.RemoveConsistent | src/mirroring/sai_mirror_common.c:400-461 | removing a session leaves no port naming it |
| MirrorSpec.RunConsistent | src/mirroring/sai_mirror_common.c:400-639 | after any run, failed calls included, the indexes are inverse and every named session exists |
| MirrorEffects.CreateEffect | src/mirroring/sai_mirror_common.c:291-398 | a created session is there, without source ports, and nothing else changed |
| MirrorEffects.RemoveEffect | src/mirroring/sai_mirror_common.c:400-461 | a session is removed exactly when no port mirrors to it and the NPU accepts; it is gone, and nothing else changed |
| MirrorEffects.AddSourceEffect | src/mirroring/sai_mirror_common.c:463-557 | a source port is added exactly when session and port are there, it is not a source yet and the NPU accepts; nothing else changed |
| MirrorEffects.RemoveSourceEffect | src/mirroring/sai_mirror_common.c:559-639 | and removed exactly when it is a source and the NPU accepts |
| MirrorEffects.InvalidPortEffect | src/mirroring/sai_mirror_port.c:124-217 | an update of an invalid port succeeds exactly when nothing has to change |
| BridgeTables.Tables.ParseAttrs | src/bridge/sai_bridge.c:333-425 | attributes are validated in order up to the first bad one |
| BridgeTables.Tables.FillAttachment | src/bridge/sai_bridge.c:222-298 | each port type demands its attribute and refuses a duplicate |
| BridgeTables.Tables.ValidateAttrs | src/bridge/sai_bridge.c:333-441 | type and bridge must be given and must fit |
| BridgeTables.Tables.TakeRefs | src/bridge/sai_bridge.c:443-521 | the references a bridge port takes |
| BridgeTables.Tables.GiveRefs | src/bridge/sai_bridge.c:523-600 | and gives back |
| BridgeTables.Tables.InstallPort | src/bridge/sai_bridge.c:965-1042 | the steps of a create, with progress flags |
| BridgeTables.Tables.CreatePort | src/bridge/sai_bridge.c:944-1059 | the steps, rolled back as far as they got |
| BridgeTables.Tables.UninstallPort | src/bridge/sai_bridge.c:1126-1176 | the steps of a remove |
| BridgeTables.Tables.RemovePort | src/bridge/sai_bridge.c:1097-1201 | the steps, put back when the NPU gives the port its id again |
| BridgeTables.Tables.CreateBridge | src/bridge/sai_bridge.c:655-713 | a bridge create with its roll-back |
| BridgeTables.Tables.RemoveBridge | src/bridge/sai_bridge.c:728-786 | the default bridge and bridges with ports stay |
| BridgeSafety.ValidatedFits | src/bridge/sai_bridge.c:222-331 | an accepted attribute list describes a port that collides with none and fits its bridge |
| BridgeSafety.AddedValid | src/bridge/sai_bridge.c:1009-1042 | installing a fitting port keeps every count and index exact |
| BridgeSafety.TakenValid | src/bridge/sai_bridge.c:1126-1176 | so does taking one out |
| BridgeSafety.FailedCreateRestores | src/bridge/sai_bridge.c:1045-1055 | a create that fails at any step leaves every table and count as it was |
| BridgeSafety.CreatePortValid | src/bridge/sai_bridge.c:944-1059 | every create keeps the invariant |
| BridgeSafety.FailedRemoveRestores | src/bridge/sai_bridge.c:1178-1198 | a remove that fails late is restored if and only if the NPU gives the port the same id again |
| BridgeSafety.RemovePortValid | src/bridge/sai_bridge.c:1097-1201 | a remove keeps the invariant under exactly that condition |
| BridgeSafety.RecreatedElsewhere | src/bridge/sai_bridge.c:1178-1198 | a port that the NPU re-creates under another id stays without its references |
| BridgeSafety.CreateBridgeValid | src/bridge/sai_bridge.c:161-206 | no second 1Q bridge is created |
| BridgeSafety.RemoveBridgeValid | src/bridge/sai_bridge.c:728-786 | only a bridge without ports is removed |
| BridgeSafety.StepValid | src/bridge/sai_bridge.c:443-1201 | every call keeps the invariant, if and only if the NPU gives back the id of a port whose removal failed late |
| BridgeSafety.RunValid | src/bridge/sai_bridge.c:443-1201 | over every run: counts, default ports, (port, VLAN) index, LAG and tunnel indexes and type fit |
| BridgeSafety.NeverShared | src/bridge/sai_bridge.c:222-298 | no two bridge ports share a PORT attachment, a sub-port, or a tunnel on one bridge |
| BridgeEffects.ParsedLast | src/bridge/sai_bridge.c:358-425 | of several attributes of one kind the last one counts |
| BridgeEffects.ValidatedIff | src/bridge/sai_bridge.c:222-441 | an attribute list validates to a bridge port if and only if it asks for exactly that one: its bridge, type, and port, VLAN, router interface or tunnel are those given last, and no other port is in the way |
| BridgeEffects.TakenRefused | src/bridge/sai_bridge.c:222-298 | what is asked for rightly but taken already is refused as existing, and nothing changes |
| BridgeEffects.CreatePortEffect | src/bridge/sai_bridge.c:944-1059 | a created bridge port is the one asked for, and no other changed |
| BridgeEffects.CreatePortSucceeds | src/bridge/sai_bridge.c:944-1059 | and it is created exactly when the NPU accepts each step |
| BridgeEffects.AddedTables | src/bridge/sai_bridge.c:443-521 | what a bridge port takes: references and index entries, by its type |
| BridgeEffects.RemovePortEffect | src/bridge/sai_bridge.c:1097-1201 | an unused bridge port is removed exactly when the NPU accepts each step |
| BridgeEffects.CreateBridgeEffect | src/bridge/sai_bridge.c:655-713 | a bridge of the type given last is created exactly when its attributes are acceptable and the NPU accepts |
| BridgeEffects.RemoveBridgeEffect | src/bridge/sai_bridge.c:728-786 | a bridge is removed exactly when it is not the default one, has no port, and the NPU accepts |
| QosMaps.IndexBijection | src/qos/sai_qos_maps.c:42-45 | color * MAX_TC + tc is a bijection onto the array, inverted by division and remainder |
| QosMaps.QueueReconstructed | src/qos/sai_qos_maps.c:287-345 | slot and stored number give back the requested queue, and no two requests are confused |
| QosMaps.FillFlat | src/qos/sai_qos_maps.c:64-84 | defaults: each slot has its key |
| QosMaps.FillTcColor | src/qos/sai_qos_maps.c:86-146 | defaults of a class and color map, filled column by column |
| QosMaps.FillTcQueue | src/qos/sai_qos_maps.c:148-180 | defaults of a queue map, both halves |
| QosMaps.UpdateList | src/qos/sai_qos_maps.c:207-429 | entries are stored up to the first invalid one |
| QosMaps.UpdateQueueList | src/qos/sai_qos_maps.c:287-345 | the same for queues, renumbering the list it is given |
| QosMaps.StoreRefines | src/qos/sai_qos_maps.c:207-429 | storing a valid list is overriding a finite map, and every slot keeps the key of its index |
| QosMaps.LastWriterWins | src/qos/sai_qos_maps.c:207-429 | the last entry for a key wins |
| QosMaps.ListKeptIff | src/qos/sai_qos_maps.c:325-338 | the caller's list is left alone if and only if it names no multicast queue |
| QosMaps.SecondUpdateDiffers | src/qos/sai_qos_maps.c:325-338 | a list that means something else when applied twice |
| QosMaps.ParseAttrs | src/qos/sai_qos_maps.c:667-734 | the two passes over the attribute list |
| QosMaps.TypeAnywhere | src/qos/sai_qos_maps.c:697-732 | the map type may stand anywhere in the list |
| QosMapEffects.Accepted | src/qos/sai_qos_maps.c:207-429 | the ranges each kind of map accepts |
| QosMapEffects.AllStored | src/qos/sai_qos_maps.c:207-429 | an update stores everything exactly when every entry is acceptable |
| QosMapEffects.SameKeySameSlot | src/qos/sai_qos_maps.c:207-429 | two entries share a slot exactly when they have the same key |
| QosMapEffects.Dot1pUpdate | src/qos/sai_qos_maps.c:207-245 | a priority code point has the class and color given last, or those it had |
| QosMapEffects.DscpUpdate | src/qos/sai_qos_maps.c:248-285 | so does a DSCP |
| QosMapEffects.ColoredUpdate | src/qos/sai_qos_maps.c:347-429 | a class and color have the code point given last, in slot 16 * color + class |
| QosMapEffects.ColoredKept | src/qos/sai_qos_maps.c:347-429 | or the one they had |
| QosMapEffects.QueueUpdate | src/qos/sai_qos_maps.c:287-345 | a class has the unicast and the multicast queue given last, the latter counted from the last unicast queue |
| QosMapEffects.QueueKept | src/qos/sai_qos_maps.c:287-345 | or the one it had |
| QosMapEffects.RenumberedAgrees | src/qos/sai_qos_maps.c:287-345 | the caller's list ends up with the queue numbers of the array |
| QosMapEffects.CreatedMap | src/qos/sai_qos_maps.c:667-734 | a map is created from type and list exactly when the type is known and every entry acceptable |
| QosMapEffects.RefusedAttrs | src/qos/sai_qos_maps.c:667-734 | a list without a type, or an unknown attribute, is refused |
| Traps.TrapTables.ValidateGroupAttrs | src/hostintf/sai_hostintf.c:217-299 | at least one attribute, none twice, each one known and accepted by the NPU |
| TrapSpec.GroupAttrsAccepted | src/hostintf/sai_hostintf.c:217-299 | an attribute list passes exactly under these conditions |
| Traps.TrapTables.CreateGroup | src/hostintf/sai_hostintf.c:369-442 | queue check, id from the bitmap, node |
| Traps.TrapTables.RemoveGroup | src/hostintf/sai_hostintf.c:444-500 | groups with traps and the default group stay |
| Traps.TrapTables.SetGroup | src/hostintf/sai_hostintf.c:541-611 | the NPU is told for every trap before the group changes |
| Traps.TrapTables.AddTrapNode | src/hostintf/sai_hostintf.c:707-748 | a new trap joins the default group, which is there |
| Traps.TrapTables.UpdateTrapNode | src/hostintf/sai_hostintf.c:750-807 | a trap leaves one list and joins another |
| Traps.TrapTables.ValidateTrapAttr | src/hostintf/sai_hostintf_utils.c:124-137 | a named group must exist |
| Traps.TrapTables.SetTrap | src/hostintf/sai_hostintf.c:809-907 | both group lookups of a trap set succeed |
| TrapSpec.CreateValid | src/hostintf/sai_hostintf.c:369-442 | a create keeps lists, ids and the default group |
| TrapSpec.CreateQueues | src/hostintf/sai_hostintf.c:385-420 | queues stay unique if and only if a queue is named, the default queue is 0, or no group has queue 0 |
| TrapSpec.DefaultQueueClashes | src/hostintf/sai_hostintf.c:385-420 | a second group with queue 0 |
| TrapSpec.RemoveValid | src/hostintf/sai_hostintf.c:444-500 | a remove succeeds if and only if the group exists, is not the default, and no trap names it |
| TrapSpec.SetGroupValid | src/hostintf/sai_hostintf.c:502-611 | a group set keeps everything, queue uniqueness included |
| TrapSpec.SetTrapValid | src/hostintf/sai_hostintf.c:707-907 | a trap is in exactly the list of the group it names, whether or not the NPU accepts the set |
| TrapSpec.StepValid | src/hostintf/sai_hostintf.c:369-907 | every call keeps lists, counts and group names in agreement |
| TrapSpec.RunValid | src/hostintf/sai_hostintf.c:369-907 | over every run each trap is in exactly the list of the group it names and the default group survives; queues stay unique too when the default queue is 0 |
| TrapEffects.CreateEffect | src/hostintf/sai_hostintf.c:369-442 | a group is created exactly when its attributes are accepted, its queue and an id are free; it has the admin state and queue asked for and no traps |
| TrapEffects.RemoveEffect | src/hostintf/sai_hostintf.c:444-500 | a removed group is gone, and nothing else changed |
| TrapEffects.SetGroupEffect | src/hostintf/sai_hostintf.c:541-611 | a group set succeeds exactly when its value is there already, or its queue is free and the NPU accepts it for each trap; the group then has the value |
| TrapEffects.SetTrapEffect | src/hostintf/sai_hostintf.c:809-907 | a trap set succeeds exactly when value, group and ports are known and the NPU accepts; the trap has the value and keeps the others, a new one the defaults |
| TrapEffects.RefusedTrap | src/hostintf/sai_hostintf.c:809-907 | a refused set changes nothing, except that a new trap stays when the NPU refuses its value |
| AclTables.Database.AllocateId | src/acl/sai_acl_table.c:43-59 | the first unused id, or the invalid one |
| AclTables.Database.ReleaseId | src/acl/sai_acl_table.c:61-73 | releasing the invalid id does nothing |
| AclTables.Database.CreateTable | src/acl/sai_acl_table.c:563-686 | an id is taken, and given back when the create fails |
| AclTables.Database.DeleteTable | src/acl/sai_acl_table.c:688-771 | the table is put back when the NPU rejects the delete |
| AclTables.Database.CreateCounter | src/acl/sai_acl_counter.c:171-284 | a counter is counted in its table |
| AclTables.Database.DeleteCounter | src/acl/sai_acl_counter.c:296-372 | a shared counter stays; the table of a deleted one is there |
| AclTables.Database.CreateRule | src/acl/sai_acl_rule.c:498-643 | install, counter, policer, with the roll-back |
| AclTables.Database.DeleteRule | src/acl/sai_acl_rule.c:645-766 | counter and policer are detached, and attached again when the policer or the NPU refuses |
| AclTables.Database.SetRule | src/acl/sai_acl_rule.c:955-1064 | validation, the merge loops on the rule node, and the policer step; the table that the code asserts is there |
| AclTables.Database.ModifyRule | src/acl/sai_acl_rule.c:865-953 | the node is loaded, marked and merged in place, and stored with its counter link |
| AclOwnership.CreateTableOwned | src/acl/sai_acl_table.c:43-73 | ids run out exactly when every id has its table |
| AclOwnership.DeleteTableOwned | src/acl/sai_acl_table.c:688-771 | exactly the tables that no rule and no counter names can be deleted |
| AclOwnership.CreateCounterOwned | src/acl/sai_acl_counter.c:171-284 | a new counter is counted in a table that exists, and nothing else moves |
| AclOwnership.DeleteCounterOwned | src/acl/sai_acl_counter.c:296-372 | the table of a deleted counter is there, and counts it no more |
| AclOwnership.CreateRuleOwned | src/acl/sai_acl_rule.c:580-635 | a rule is counted in its table when it is created, rejected creates change no count |
| AclOwnership.DeleteRuleOwned | src/acl/sai_acl_rule.c:645-766 | the table of a rule is there, and counts it no more when it is deleted |
| AclOwnership.SetRuleOwned | src/acl/sai_acl_rule.c:955-1064 | a set moves no rule and no counter, and keeps the lists free of marks and of repeated keys |
| AclOwnership.SetRuleOverrides | src/acl/sai_acl_rule.c:955-1064 | an admitted and accepted set is an override if and only if the counter can be linked |
| AclOwnership.StepOwned | src/acl/sai_acl_table.c:594-771 | rule_count, num_counters, id flags and lists stay exact in each call, whatever the NPU answers |
| AclOwnership.RunOwned | src/acl/sai_acl_table.c:594-771 | and over every run |
| AclOwnership.TablesFound | src/acl/sai_acl_counter.c:740-777 | over every run the table of each rule and counter is found, so the assertions on table lookups never fire |
| AclOwnership.SetAfterRun | src/acl/sai_acl_rule.c:955-1064 | in every reachable state a set overrides the rule under exactly that condition |
| AclSafety.CreateCounterValid | src/acl/sai_acl_counter.c:171-284 | a new counter is named by no rule |
| AclSafety.DeleteCounterValid | src/acl/sai_acl_counter.c:296-372 | a counter is deleted exactly when no rule names it and the NPU agrees |
| AclSafety.CreateRuleValid | src/acl/sai_acl_rule.c:580-635 | a rule create keeps counters exact if and only if its policer is not refused with the counter attached |
| AclSafety.DeleteRuleValid | src/acl/sai_acl_rule.c:700-760 | a rule delete does, if and only if a counter it detached for nothing is attached again; it never meets a counter of another table |
| AclSafety.SetRuleValid | src/acl/sai_acl_rule_utils.c:450-497 | a rule set does, if and only if it does not fail while attaching a new counter |
| AclSafety.SetFailsAtNpuOnly | src/acl/sai_acl_counter.c:740-777 | nor does a rule set meet a counter of another table: relinking fails only when the NPU refuses |
| AclSafety.StepValid | src/acl/sai_acl_table.c:594-771 | counter ids and sharing stay exact in each call, under exactly these conditions |
| AclSafety.RunValid | src/acl/sai_acl_table.c:594-771 | and over every run in which no call loses a counter |
| AclSafety.CountersFound | src/acl/sai_acl_counter.c:740-777 | after such a run a rule's counter is there, in the rule's own table |
| AclSafety.RejectedCreateLeaksCounter | src/acl/sai_acl_rule.c:580-635 | a create refused by its policer leaves a counter shared by no rule |
| AclSafety.RejectedDeleteLosesCounter | src/acl/sai_acl_rule.c:700-760 | a delete refused twice leaves a rule whose counter is not shared |
| AclSafety.LostCounterDangles | src/acl/sai_acl_rule_utils.c:450-497 | after a set that reported success the rule's counter can be deleted, and the rule names a counter that is gone |
| AclEffects.CreateTableEffect | src/acl/sai_acl_table.c:563-686 | a table is created exactly when an id is free and the NPU agrees; it has the lowest free id and is empty |
| AclEffects.DeleteTableEffect | src/acl/sai_acl_table.c:688-771 | a deleted table is gone, and a refused delete leaves every table as it was |
| AclEffects.CreateCounterEffect | src/acl/sai_acl_counter.c:171-284 | a counter is created exactly when its table is there and the NPU accepts; no rule shares it and its table counts it |
| AclEffects.DeleteCounterEffect | src/acl/sai_acl_counter.c:296-372 | a deleted counter is gone and its table counts one less |
| AclEffects.CounterAsked | src/acl/sai_acl_rule.c:313-350 | the counter of an action list is the object of its enabled counter action |
| AclEffects.CreateRuleEffect | src/acl/sai_acl_rule.c:498-643 | a rule is created exactly when it has a field, its table and its counter fit and the NPU accepts each step; it has the table, fields, actions and counter asked for, and no other rule changes |
| AclEffects.DeleteRuleEffect | src/acl/sai_acl_rule.c:645-766 | a rule is deleted exactly when the NPU accepts each step; it is gone, and table and counter count it no more |
| AclEffects.SetRuleEffect | src/acl/sai_acl_rule.c:955-1064 | a set takes effect exactly when it is for the rule's own table and counters and the NPU accepts it; no other rule changes |
| AclEffects.TableIdFixed | src/acl/sai_acl_rule.c:955-1064 | another table id is refused, and nothing changes |
| AclEffects.SetLinkedIff | src/acl/sai_acl_rule_utils.c:875-955 | when the counter can be linked, in terms of the NPU's answers to detaching the old one and attaching the new one |

## Left out

- Records are map values, not shared nodes: the aliasing of node pointers held by lists, trees and callers, and freed memory that is still pointed to, are not modelled.
- Locks, the order of locking and early returns that skip an unlock: each call is one atomic step.
- Memory allocation failures, and failures of tree inserts and removals except in the bridge module, where every step may fail.
- Logging, debug output, API tables, attribute get calls, statistics and packet input and output.
- QosBuffer.BufferTables.CreatePool: does not model WRED linking, which is in code not shown; the generic attribute validator, not part of this model, is taken to refuse empty lists, unknown attributes and duplicates.
- QosBuffer.BufferTables.SetPool: does not model WRED linking; setting the XOFF size of an existing pool asks the NPU and leaves the node alone, because its store is in code not shown.
- QoS buffers: `sai_qos_buffer_profile_get_reserved_xoff_th_get` is not part of this model; it is taken to be 0 when the pool has an XOFF size and the XOFF threshold otherwise. The reference counts do not wrap.
- ACL rules: the UDF group reference inside a field, the range list field, rule priority and admin state, and the sample packet session. Object lists are always taken as changed, because the code compares their pointers through a copy. Whether a rule holds a policer is not tracked: each call is told whether it touches a policer link, and that step can fail.
- AclRule.UpdateByteList: requires as many mask bytes as there are data bytes when they are copied, because the code reads that many; with fewer it reads past the list, which is not modelled.
- AclRuleMerge.MergeOverrides: assumes equal byte counts of data and mask in the rule and in the delta; with a longer mask the code keeps only its first bytes, and no override can hold.
- AclTables.Database.CreateCounter: folds the NPU call that creates the counter's table, when that is still to be done, into one call with the counter's own; the choice between packet and byte counting is left out.
- AclTables.Database.CreateRule: leaves out the sample packet session and folds the NPU call that creates the rule's table into that of the rule.
- AclTables.Database.DeleteRule: leaves out the sample packet session and the check of the rule list of the table.
- ACL tables: fields, stages, groups, group members and ranges.
- Bridges: failures inside the increment and decrement of the attachment counts, notifications to other modules, LAG membership changes, and attribute sets after creation. The roll-back steps themselves are taken to succeed.
- Mirror.MirrorTables.CreateSession: leaves out the attributes of a session and their mandatory subsets. Tree keys are ordered by session and direction; the proofs use only that the order is total and strict.
- HashObjects.HashTables.constructor: leaves out the default objects made at initialization, which are ordinary creates and binds.
- QosMaps.Stored: stores 0 in the members that a kind of map does not use, where the code leaves what the array has; arrays start with 0 there, so no created map shows the difference.
- QosMaps.ParseAttrs: models creation; a set stores into the array of the existing map. The maps to priority groups and from PFC priorities are one more instance of the same array and are left out, as are ports that use a map. The range check of the four members is not part of this model and is taken from its uses; `MAX_TC` is 16 as the comments there say.
- Traps.TrapTables.ValidateGroupAttrs: leaves out the checks for mandatory attributes and for attributes that cannot be set, because the attribute table makes none mandatory and lets all be set.
- Traps: the NPU's validation of an attribute is one call of the oracle; user defined traps and the sample packet trap are left out.
- ACL table groups, sample packet sessions, port defaults, configuration parsing and the scheduler hierarchy.
