# Verified model of the robot repository's core logic

This project models, in Dafny, the parts of the repository where correctness is hardest to see: the
tf2 transform buffer with its concurrent request queue, the two implementations of wheel-odometry
correction, the event-log printer and parser, the strict scenario parser, the merging of event logs,
the level timeline of diagnostics, and the waypoint editor with its file format.

## How it is organised

- `Rigid`, `TimeCaches`, `Forest`, `LatestCommonTimes`, `Buffers`, `Lookups`, `NamedLookups`,
  `Publishing`, `PublishedLookups`: the buffer as a value. A time cache is a list of stamped transforms, newest first; the parents at one time form a
  graph, in which nothing excludes loops; a lookup is a two-phase walk on it. Rotations are exact unit
  quaternions over the reals, and slerp is a parameter of which only two facts are used.
- `BufferCores` and the classes of `TimeCaches`: the same as objects that are updated in place, with
  the loops of the source, each method proved against the value level.
- `TransformableRequests`: the request queue as a step system. Each thread has a program point that
  fixes the mutexes it holds; any enabled thread may take the next step. `RequestSafety`,
  `RequestBookkeeping`, `RequestNames`, `RequestWakeup`, `RequestResults`, `RequestExpiry`, `RequestOutcomes`
  and `RequestTermination` prove what every run keeps and where it ends. Locks, progress, bookkeeping, results and
  termination hold for every run; that no wakeup is lost is proved for runs without loops or chains beyond
  the depth limit in which no rejected message reparents its child. `RejectedUpdates` proves that the
  last condition is exactly what one step needs, and `LostWakeups` gives a run that breaks it.
- `Planar`, `WheelOdometry`, `OdometryLaws`: planar poses over a parameter `rot` for which only the laws of sine and
  cosine are assumed.
- `EventLogs`, `EventFormats`; `StableSorts`, `EventTimelines`; `StatusTimelines`, `StatusMeanings`; `Yamls`,
  `WaypointFiles`, `WaypointContents`, `WaypointEditors`; `ScenarioSpecs`, `ScenarioLoaders`; `Decimals`.

`dafny verify dfyconfig.toml` checks the whole project.

## What the proofs show about the code

- Equal stamps: `findClosest` takes the first in the list of several entries with one stamp, but
  the last of them when their stamp is the oldest. So pruning can change the answer for the oldest retained stamp
  (`PruneKeepsAnswers`, `PruneKeepsParents` give the exact condition), and a rejected `setTransform`,
  which prunes but is followed by no test pass, can make a queued request transformable
  (`RejectionCanEnable`; `RejectionHarmless` gives the exact condition).
- A rejected `setTransform` may still register the name of the parent frame.
- The age check of requests compares with the latest common time. A history may span more than the cache
  keeps, because it is pruned before the newest entry comes in, and a request for the latest time counts as
  one for time zero: such requests are told of a failure although they are transformable
  (`GivenUpTooEarly`; `LateIsGone` says when the check is right).
- Python's `$` lets a name or key end in a newline: such an event does not survive the round trip, and
  `RoundTrip` says that nothing else fails.
- `to_dict` drops a request or data that is empty but no dict, and every field that the action's type
  does not use; `from_dict` then supplies the defaults (`ActionRoundTrip`).
- The loader accepts an index `true` or `1.0` where it means 1, because it compares with Python's `==`; the
  marker is then named "waypoint_True" or "waypoint_1.0", and the menu callbacks raise on it
  (`NameGivesIndex`) until something renumbers the list.
- The loader does not check tolerances, but its warnings compare them: a through point whose tolerance is no
  number makes loading raise, unless it is the first. So a file can load and, after Copy Next, be saved as
  one that does not (`CopyCanSpoil`; `EverySessionLoads` gives the exact condition).
- Editor `insert` with a negative index inside the list breaks the numbering (`Editor.Insert`); the
  menu callbacks never call it so.

## Model

| member | source | states |
|---|---|---|
| `RequestWakeup.WakeupsNeverLost` | geometry2_pkg/tf2/src/buffer_core.cpp:1406-1476 | in every state of every interleaving of setters, adders, cancellers and test passes without loops, in which no rejected message reparents its child, a queued request that is transformable is still to be examined by a thread that has updated the buffer: no wakeup is lost |
| `LostWakeups.WakeupCanBeLost` | geometry2_pkg/tf2/src/buffer_core.cpp:269-305 | the condition is needed: a run from an empty buffer, without loops, of four accepted messages, a request and a rejected message, after which every operation has finished and the request is queued and transformable |
| `TransformableRequests.SteadyIsCalm` | geometry2_pkg/tf2/src/buffer_core.cpp:269-305 | it is enough that no state has a child that pruning would reparent |
| `RequestWakeup.QuiescentQueueWaits` | geometry2_pkg/tf2/src/buffer_core.cpp:1406-1481 | when all operations of such a run have finished, nothing left in the queue is transformable |
| `RequestTermination.QueueDrains` | geometry2_pkg/tf2/src/buffer_core.cpp:1272-1481 | when all operations of such a run have come to their end, every transformable request has left the queue |
| `RequestTermination.OperationsFinish` | geometry2_pkg/tf2/src/buffer_core.cpp:1272-1481 | in every run, once no operation begins any more, those under way finish within a bounded number of steps under any scheduling |
| `RequestBookkeeping.BufferAlwaysValid` | geometry2_pkg/tf2/src/buffer_core.cpp:201-305 | in every run the buffer keeps names and ids inverse to each other, all lists ordered and all rotations unit |
| `RequestTermination.StepsDecrease` | geometry2_pkg/tf2/src/buffer_core.cpp:1417-1475 | every step of every operation uses up a measure over all threads, although adders lengthen the queue that waiting test passes will have to go through |
| `RequestResults.CallbacksAreToldTheTruth` | geometry2_pkg/tf2/src/buffer_core.cpp:1438-1481 | a callback that is told that its transform is available, or has failed, belongs to a request that was queued and transformable, or expired, at an earlier state of the run |
| `RequestOutcomes.FailuresWereLate` | geometry2_pkg/tf2/src/buffer_core.cpp:1437-1443 | a callback that is told of a failure belongs to a request that was queued, at an earlier state, while something on the path between its two frames was dated and everything dated there was ahead of its time by more than the cache keeps |
| `RequestExpiry.ExpiredIsLate` | geometry2_pkg/tf2/src/buffer_core.cpp:1437-1441 | on loop-free latest parents the age check fails a request if and only if that holds of the path over the lowest common ancestor |
| `RequestExpiry.LateIsGone` | geometry2_pkg/tf2/src/buffer_core.cpp:1312-1319 | such a request for a time is not transformable any more, when every cache has had one parent and spans no more than it keeps |
| `RequestExpiry.GivenUpTooEarly` | geometry2_pkg/tf2/src/buffer_core.cpp:1437-1441 | without that it may be: a concrete buffer with a longer history, and any request for the latest time, are given up although they are transformable |
| `RequestExpiry.LatestIsNewest` | geometry2_pkg/tf2/src/cache.cpp:285-302 | the latest stamp and parent of a frame are those of an entry than which none is newer |
| `RequestOutcomes.AgeCheckIsExact` | geometry2_pkg/tf2/src/buffer_core.cpp:1437-1446 | the test pass fails a request exactly when it is late, and otherwise goes on to check it |
| `RequestOutcomes.AddCheckIsExact` | geometry2_pkg/tf2/src/buffer_core.cpp:1305-1307 | with current ids the check of addTransformableRequest is canTransform for the names and the time given |
| `RequestOutcomes.AddGivesUpWhenLate` | geometry2_pkg/tf2/src/buffer_core.cpp:1310-1319 | after a check that failed the request is queued, unless both frames are known and it is late |
| `RequestOutcomes.OneAtATime` | geometry2_pkg/tf2/src/buffer_core.cpp:1299-1329 | in every run no two threads are at the buffer at once, nor at the queue |
| `RequestOutcomes.ChangesAreGuarded` | geometry2_pkg/tf2/src/buffer_core.cpp:269-305 | only a step that holds the frame mutex changes the buffer, and only one at the queue changes the queue |
| `RequestOutcomes.CallbacksHoldNothing` | geometry2_pkg/tf2/src/buffer_core.cpp:1477-1480 | while a thread runs a callback it holds none of the three mutexes |
| `RequestNames.RequestsAreAboutTwoFrames` | geometry2_pkg/tf2/src/buffer_core.cpp:1426-1433 | in every run a queued request is about two different frames |
| `RequestNames.AddedAsGiven` | geometry2_pkg/tf2/src/buffer_core.cpp:1331-1346 | a request is queued behind the others with the names and the time that the caller gave and a new handle |
| `RequestNames.LookupsChangeIdsOnly` | geometry2_pkg/tf2/src/buffer_core.cpp:1426-1433 | the lookups of a test pass change only the ids of one request, by which it asks about the same frames as before |
| `RequestNames.CancelTakesOne` | geometry2_pkg/tf2/src/buffer_core.cpp:1350-1363 | cancelling takes the requests with the handle out of the queue and leaves all others |
| `RequestWakeup.RejectionEnablesNothing` | geometry2_pkg/tf2/src/buffer_core.cpp:269-305 | a rejected setTransform that does not reparent its child, and skips the test pass, makes no queued request transformable, not even one that waits for a name it registers |
| `RequestWakeup.WakeAdvance` | geometry2_pkg/tf2/src/buffer_core.cpp:1283-1347 | every step of every thread, under any interleaving, keeps the invariant behind the wakeup theorem, also while names are looked up without the frame mutex |
| `RequestSafety.Progress` | geometry2_pkg/tf2/src/buffer_core.cpp:1419-1481 | deadlock freedom: while an operation is unfinished some step is enabled, with a client mutex held around addTransformableRequest and taken in callbacks |
| `RequestSafety.LockOrder` | geometry2_pkg/tf2/src/buffer_core.cpp:1299-1329 | mutexes are taken in the order client, requests, then frame or callbacks, and the last two are never held together |
| `RequestSafety.LockInvAdvance` | geometry2_pkg/tf2/src/buffer_core.cpp:1299-1329 | a mutex is owned by exactly the thread whose program point holds it, after every step |
| `RequestBookkeeping.HandlesConserved` | geometry2_pkg/tf2/src/buffer_core.cpp:1321-1347 | over every run each issued handle is in exactly one of queued, detached, called back, cancelled, exactly once, so no callback runs twice; the callback table holds exactly the callbacks of the queued requests, which are distinct |
| `RequestBookkeeping.NeverStuck` | geometry2_pkg/tf2/src/buffer_core.cpp:1272-1363 | no state reachable by any run is stuck while an operation is unfinished |
| `RequestBookkeeping.HandlesSwapRemove` | geometry2_pkg/tf2/src/buffer_core.cpp:1466-1471 | swapping a request with the last one and popping removes that request's handle and no other |
| `RequestBookkeeping.PartitionHandles` | geometry2_pkg/tf2/src/buffer_core.cpp:1350-1363 | the two sides of the partition by handle hold together exactly the handles of the queue |
| `RejectedUpdates.RejectionHarmless` | geometry2_pkg/tf2/src/buffer_core.cpp:269-305 | for every loop-free buffer and rejected message: nothing becomes transformable, for any frames at any time, if and only if the cut does not move the child, at the oldest stamp it keeps, under a parent of another tree |
| `RejectedUpdates.CutRelatesMore` | geometry2_pkg/tf2/src/cache.cpp:102-162 | when it does, the child becomes related to its new parent at that stamp although it was not |
| `RejectedUpdates.TiesAgreeIsSteady` | geometry2_pkg/tf2/src/cache.cpp:228-273 | a buffer that never recorded one stamp with two parents has no such child |
| `RejectedUpdates.RejectionCuts` | geometry2_pkg/tf2/src/buffer_core.cpp:269-305 | all that a rejected datum changes is that the child's history is pruned and, perhaps, the parent's name is registered |
| `RejectedUpdates.NewNameUnrelated` | geometry2_pkg/tf2/src/buffer_core.cpp:957-971 | a name that a rejected message has registered is related to no other frame at any time |
| `Publishing.RejectionCanEnable` | geometry2_pkg/tf2/src/buffer_core.cpp:269-305 | a concrete buffer with two parents at one stamp on which a rejected message makes a transform available, with no test pass to follow |
| `Publishing.StoreValid` | geometry2_pkg/tf2/src/buffer_core.cpp:201-305 | setTransform keeps names and ids inverse to each other, all parents registered, all lists ordered and all rotations unit, and renumbers nothing |
| `Publishing.RejectedWeakens` | geometry2_pkg/tf2/src/buffer_core.cpp:269-305 | a rejected datum leaves the buffer valid, with caches pruned at their old end only |
| `NamedLookups.NamedLookup` | geometry2_pkg/tf2/src/buffer_core.cpp:768-816 | for two known names lookupTransform returns, at the time asked for or the latest common one, the inverse of the target's path composed with the source's path, for every common ancestor |
| `NamedLookups.SameNameLookup` | geometry2_pkg/tf2/src/buffer_core.cpp:777-791 | a frame seen from itself is not moved, at the time asked for or its latest |
| `NamedLookups.LookupRefuses` | geometry2_pkg/tf2/src/buffer_core.cpp:793-795 | a misspelt name is an invalid argument and an unknown one a lookup error, the target being looked at first |
| `NamedLookups.LookupErrorMeansLoop` | geometry2_pkg/tf2/src/buffer_core.cpp:799-811 | a lookup error for known frames at a nonzero time means that a chain loops or is too long |
| `NamedLookups.NamedLookupFixed` | geometry2_pkg/tf2/src/buffer_core.cpp:819-837 | with a fixed frame the result is the tree path from source to fixed frame at the one time, and then from there to the target at the other |
| `PublishedLookups.StaticIsFound` | geometry2_pkg/tf2/src/buffer_core.cpp:272-305 | publish and look up: a static transform is accepted and is what a lookup between its frames returns, at every time |
| `PublishedLookups.DynamicIsFound` | geometry2_pkg/tf2/src/buffer_core.cpp:272-305 | an accepted transform is what a lookup at its stamp returns, unless the history has something else with that stamp |
| `PublishedLookups.NewestIsFound` | geometry2_pkg/tf2/src/buffer_core.cpp:272-305 | a transform newer than all others is accepted, and is what a lookup for the latest time returns, with its stamp |
| `PublishedLookups.PublishedFrames` | geometry2_pkg/tf2/src/buffer_core.cpp:272-305 | a message changes nothing but its child's cache, and at most registers its two names, without a leading slash |
| `PublishedLookups.PublishedHistory` | geometry2_pkg/tf2/src/cache.cpp:228-273 | it is accepted exactly when no entry of its child is newer by more than the storage time, and the history then holds it and what of the others is not older than that |
| `PublishedLookups.UnfitIsRefused` | geometry2_pkg/tf2/src/buffer_core.cpp:206-267 | a message about one frame alone, without a frame, or with something that is no rotation changes nothing |
| `Lookups.LookupIsTreePath` | geometry2_pkg/tf2/src/buffer_core.cpp:351-516 | a successful lookup returns the inverse of the target's path composed with the source's path for every common ancestor, whatever ending the walk took, at the time asked for or at the latest common time |
| `Lookups.FinalizedIsRelative` | geometry2_pkg/tf2/src/buffer_core.cpp:550-579 | all four endings of the walk are one formula over the two accumulated paths |
| `Buffers.RelativeUnique` | geometry2_pkg/tf2/src/buffer_core.cpp:539-579 | walking past the lowest common ancestor cancels out: every common ancestor gives the same relative transform |
| `Lookups.LookupDecides` | geometry2_pkg/tf2/src/buffer_core.cpp:352-487 | at a nonzero time with chains that end within the depth limit, lookup succeeds exactly when the frames share an ancestor, reports connectivity exactly when both chains end at distinct roots without a cache, and extrapolation otherwise |
| `Lookups.LookupsCompose` | geometry2_pkg/tf2/src/buffer_core.cpp:768-816 | looking up x from y and y from z composes to looking up x from z |
| `Lookups.CanIffLookup` | geometry2_pkg/tf2/src/buffer_core.cpp:860-908 | canTransform is true exactly when lookupTransform would not throw, on every valid buffer and at every time including zero |
| `Lookups.CanIffLookupFixed` | geometry2_pkg/tf2/src/buffer_core.cpp:910-934 | the same for the form with a fixed frame and two times |
| `Buffers.SameParents` | geometry2_pkg/tf2/src/buffer_core.cpp:530-537 | getData and getParent report the same parent for both cache kinds at every time, so both accumulators walk the same graph |
| `Lookups.NoLaterLookup` | geometry2_pkg/tf2/src/buffer_core.cpp:1049-1198 | when every cache has had one parent and the latest common time is not zero, no lookup at a later time succeeds |
| `Forest.WalkSound` | geometry2_pkg/tf2/src/buffer_core.cpp:376-470 | on every graph, loops included, each of the two walks stops within the depth limit, and a walk that succeeds has found a common ancestor |
| `Forest.WalkDecides` | geometry2_pkg/tf2/src/buffer_core.cpp:352-487 | without loops the walk decides whether the frames are connected, and its error says why not |
| `Forest.ForkIsLowest` | geometry2_pkg/tf2/src/buffer_core.cpp:1134-1170 | every common ancestor lies at or above the lowest one, equally far above it on both sides |
| `LatestCommonTimes.LatestCommonIsPathTime` | geometry2_pkg/tf2/src/buffer_core.cpp:1075-1198 | on a loop-free graph getLatestCommonTime answers for exactly the path over the lowest common ancestor, and reports missing connectivity when there is none |
| `LatestCommonTimes.PathTimeIsMinimum` | geometry2_pkg/tf2/src/buffer_core.cpp:1075-1198 | that answer is the smallest nonzero latest stamp over exactly the edges of the path, or zero if there is none |
| `LatestCommonTimes.LaterUnrelated` | geometry2_pkg/tf2/src/buffer_core.cpp:1049-1198 | a graph that has lost the edges with that stamp no longer relates the two frames |
| `BufferCores.BufferCore.WalkToTopParent` | geometry2_pkg/tf2/src/buffer_core.cpp:328-516 | the two walk loops with their accumulators compute the walk on the graph of parents and the transforms of the two paths |
| `BufferCores.BufferCore.GetLatestCommonTime` | geometry2_pkg/tf2/src/buffer_core.cpp:1049-1198 | the two loops over the list of ancestors compute the latest common time of the path |
| `BufferCores.BufferCore.ClimbFromSource` | geometry2_pkg/tf2/src/buffer_core.cpp:376-425 | the first loop stops at the target, at the top or at the depth limit, with the path accumulated so far |
| `BufferCores.BufferCore.ClimbFromTarget` | geometry2_pkg/tf2/src/buffer_core.cpp:427-475 | the second loop likewise, against the top of the first and the source |
| `BufferCores.BufferCore.CollectAncestors` | geometry2_pkg/tf2/src/buffer_core.cpp:1075-1128 | the first loop of getLatestCommonTime lists the source's ancestors with the stamps of the edges to them |
| `BufferCores.BufferCore.ClimbToList` | geometry2_pkg/tf2/src/buffer_core.cpp:1131-1178 | the second loop finds the first ancestor of the target that is in that list, with the minimum stamp on the way |
| `BufferCores.BufferCore.SetTransformImpl` | geometry2_pkg/tf2/src/buffer_core.cpp:201-305 | updating the caches in place gives the buffer that the value-level setTransform gives, and keeps the caches of different frames separate |
| `BufferCores.BufferCore.LookupOrInsertFrameNumber` | geometry2_pkg/tf2/src/buffer_core.cpp:957-971 | registers a new name behind the others, and leaves a known one alone |
| `BufferCores.BufferCore.LookupTransform` | geometry2_pkg/tf2/src/buffer_core.cpp:768-816 | lookup by names, with its exceptions, on the object |
| `BufferCores.BufferCore.CanTransform` | geometry2_pkg/tf2/src/buffer_core.cpp:860-908 | availability by names on the object |
| `BufferCores.BufferCore.constructor` | geometry2_pkg/tf2/src/buffer_core.cpp:152-161 | an empty buffer with the reserved frame |
| `TimeCaches.InsertRefinesSet` | geometry2_pkg/tf2/src/cache.cpp:228-273 | insertData refines a set: the list stays ordered without duplicates, and its entries are the old ones not older than the latest minus the storage time, plus the datum unless it is too old |
| `TimeCaches.InsertedEntries` | geometry2_pkg/tf2/src/cache.cpp:228-273 | an entry is in the list after an insertion exactly when it was there, or is the datum, and nothing that was there is newer by more than the storage time |
| `TimeCaches.InterpolationIsLinear` | geometry2_pkg/tf2/src/cache.cpp:166-188 | between two stamps under one parent each coordinate runs linearly in time, and slerp is given the two rotations and the part of the time that is gone |
| `TimeCaches.OlderAnswersAcrossParents` | geometry2_pkg/tf2/src/cache.cpp:203-208 | between two stamps with different parents the older entry is the answer |
| `TimeCaches.ZeroAsksForNewest` | geometry2_pkg/tf2/src/cache.cpp:102-125 | time zero is answered with an entry than which none is newer |
| `TimeCaches.ArrivalOrderIrrelevant` | geometry2_pkg/tf2/src/cache.cpp:228-273 | any two arrival orders of the same data, with distinct stamps and within the span, give the same list |
| `TimeCaches.DataAvailability` | geometry2_pkg/tf2/src/cache.cpp:102-213 | data is there exactly for the times inside the recorded span and for time zero, and with the parent that getParent gives |
| `TimeCaches.FindClosest` | geometry2_pkg/tf2/src/cache.cpp:102-162 | never leaves the list; an exact answer has the time asked for; otherwise the two answers are neighbours with older at most the time and newer after it |
| `TimeCaches.InterpolationInRange` | geometry2_pkg/tf2/src/cache.cpp:166-188 | getData never interpolates between equal stamps, and its ratio is at least zero and below one |
| `TimeCaches.RecordedStampAnswers` | geometry2_pkg/tf2/src/cache.cpp:190-213 | with distinct stamps a recorded stamp is answered with the datum recorded at it |
| `TimeCaches.PruneKeepsAnswers` | geometry2_pkg/tf2/src/cache.cpp:318-325 | pruning changes no answer at or after the oldest retained stamp, if and only if that stamp is not tied |
| `TimeCaches.PruneKeepsParents` | geometry2_pkg/tf2/src/cache.cpp:318-325 | pruning only takes parents away, if and only if the oldest retained stamp is not tied between two parents |
| `TimeCaches.TimeCache.PruneList` | geometry2_pkg/tf2/src/cache.cpp:318-325 | popping from the old end leaves exactly the entries that are young enough |
| `TimeCaches.TimeCache.InsertData` | geometry2_pkg/tf2/src/cache.cpp:228-273 | the in-place insertion computes the list and the verdict of the specification |
| `TimeCaches.TimeCache.HasDuplicate` | geometry2_pkg/tf2/src/cache.cpp:246-262 | looking only among the entries with the same stamp finds any equal entry |
| `TimeCaches.TimeCache.FindClosestEntries` | geometry2_pkg/tf2/src/cache.cpp:102-162 | the scanning loop computes FindClosest |
| `TimeCaches.TimeCache.GetData` | geometry2_pkg/tf2/src/cache.cpp:190-213 | the entry, or the interpolation of the two, that answers for the time |
| `TimeCaches.TimeCache.GetParent` | geometry2_pkg/tf2/src/cache.cpp:215-226 | the parent that answers for the time |
| `TimeCaches.StaticCache.InsertData` | geometry2_pkg/tf2/src/static_cache.cpp:47-51 | overwrites the one transform |
| `Rigid.ApplyCompose` | geometry2_pkg/tf2/include/tf2/LinearMath/Transform.hpp:253-258 | composing transforms is applying one after the other, for every point |
| `Rigid.ComposeAssoc` | geometry2_pkg/tf2/include/tf2/LinearMath/Transform.hpp:253-258 | composition of rigid transforms is associative |
| `Rigid.ComposeInverse` | geometry2_pkg/tf2/include/tf2/LinearMath/Transform.hpp:195-199 | for a unit quaternion inverse() is the two-sided inverse |
| `Rigid.RotateMul` | geometry2_pkg/tf2/include/tf2/LinearMath/Quaternion.hpp:480-485 | rotating by a product is rotating twice |
| `Rigid.RotateFormula` | geometry2_pkg/tf2/include/tf2/LinearMath/Quaternion.hpp:480-485 | the quaternion (u, w) turns v to (w^2 - u.u) v + 2 (u.v) u + 2 w (u x v) |
| `Rigid.Cancel` | geometry2_pkg/tf2/src/buffer_core.cpp:550-579 | a common upper part of two paths cancels in the relative transform |
| `WheelOdometry.IncrementalEqualsBatch` | mg_drivers/scripts/wheel_odom_correction.py:80-116 | for any raw poses without a reset jump and with turns below half a turn, the corrector, wrapping at every step, ends at its start pose composed with what the batch integration of the unwrapped poses gives: same position, same yaw modulo a full turn |
| `WheelOdometry.CalibrationMatchesRobot` | tools/common/odom_calib.py:70-106 | over a whole recording the calibration tool integrates to where the robot's corrector ends |
| `OdometryLaws.IntegratedTurn` | tools/common/odom_calib.py:94-106 | for all gains the integrated heading is the turn gain times the raw turn, plus the bias times the distance gain times the way forward |
| `OdometryLaws.CorrectedTurn` | mg_drivers/scripts/wheel_odom_correction.py:80-116 | and so, up to full turns, is what the corrector on the robot has turned |
| `OdometryLaws.IntegratedScale` | tools/common/odom_calib.py:94-106 | with the distance gain alone the integrated end position is that many times the one without correction |
| `OdometryLaws.CorrectedScale` | mg_drivers/scripts/wheel_odom_correction.py:80-116 | and on the robot the corrected pose has then moved that many times as far from its start as the raw pose |
| `OdometryLaws.StraightStep` | mg_drivers/scripts/wheel_odom_correction.py:97-115 | a raw step ahead and aside without a turn moves the corrected pose by the scaled step, along its own heading half way through the turn that the bias adds |
| `OdometryLaws.ResetMeans` | mg_drivers/scripts/wheel_odom_correction.py:80-96 | the first raw pose and one beyond the limit are taken over, and no other |
| `OdometryLaws.BackWhereItBegan` | tools/common/odom_calib.py:70-106 | out and back the same way the integration ends where it began, for all gains: the mid-step headings are the right ones |
| `OdometryLaws.PoseIsLinear` | tools/common/odom_calib.py:79-86 | between two samples position and heading run linearly in time |
| `OdometryLaws.WindowOfOne` | tools/common/odom_calib.py:70-91 | a window without a sample inside is the one increment between the interpolated poses at its ends |
| `WheelOdometry.WindowsChain` | tools/common/odom_calib.py:70-91 | cut at the time of a sample, with any time offset, the increments of a window are those of its two parts in turn |
| `WheelOdometry.IntegrationsChain` | tools/common/odom_calib.py:94-106 | integrating one list of increments after another composes their end poses |
| `WheelOdometry.WholeRecording` | tools/common/odom_calib.py:70-91 | a window that spans the recording consists of the increments between consecutive samples |
| `WheelOdometry.UnitGainsKeepOffset` | mg_drivers/scripts/wheel_odom_correction.py:80-116 | with unit gains and no bias a step that is no reset keeps the rigid offset between corrected and raw pose, from any state |
| `WheelOdometry.UnitGainsReproduce` | mg_drivers/scripts/wheel_odom_correction.py:80-116 | a corrector that always had unit gains outputs the raw pose on every run, jumps included |
| `WheelOdometry.OdomCorrector.Update` | mg_drivers/scripts/wheel_odom_correction.py:80-116 | the stateful update changes previous pose, corrected pose and reset flag as the specification says |
| `WheelOdometry.Integrate` | tools/common/odom_calib.py:94-106 | the running sums end at the integrated pose |
| `Planar.WrapIsSame` | mg_drivers/scripts/wheel_odom_correction.py:16-17 | wrapping stays within the half turns and changes the angle by full turns only |
| `Planar.WrapUnique` | mg_drivers/scripts/wheel_odom_correction.py:16-17 | and gives the only such angle |
| `EventLogs.RoundTrip` | mg_utils/mg_utils/event_log.py:22-85 | printing and parsing give back the name and the text of every field, whatever the values contain, if and only if neither the name nor a printed key ends in the newline that the patterns let through |
| `EventLogs.ParseOfFormat` | mg_utils/mg_utils/event_log.py:35-71 | what parsing a printed event gives when the keys are words, with the name less a trailing newline |
| `EventFormats.ReadBack` | mg_utils/mg_utils/event_log.py:22-71 | a printed event is read back as its name and, for every field that is not None, its key without trailing underscores with its text, true or false for a boolean; and as nothing else |
| `EventFormats.NameExactly` | mg_utils/mg_utils/event_log.py:14-14 | a name is two words of small letters, digits and underscores with a dot between them, each beginning with a letter |
| `EventFormats.RefusedExactly` | mg_utils/mg_utils/event_log.py:42-50 | an event is refused exactly when its name is none or a key is no word or evt itself, but for a newline at the end of either |
| `EventFormats.StripExact` | mg_utils/mg_utils/event_log.py:46-46 | the printed key is the longest beginning of the key that does not end in an underscore |
| `EventFormats.EventGrows` | mg_utils/mg_utils/event_log.py:35-54 | an event without fields is evt= and its name; each field that is not None adds a blank, its key without trailing underscores, an equals sign and its value |
| `EventFormats.PlainExactly` | mg_utils/mg_utils/event_log.py:22-32 | a value stands as it is exactly when it is not empty and has no blank, quote, equals sign or backslash |
| `EventFormats.QuotedText` | mg_utils/mg_utils/event_log.py:30-31 | otherwise it stands between quotes, without newlines, carriage returns or tabs |
| `EventFormats.EscapedAt` | mg_utils/mg_utils/event_log.py:17-31 | which characters are escaped in a quoted value, and how |
| `EventFormats.UnquoteBackslash` | mg_utils/mg_utils/event_log.py:74-85 | a backslash stands for the control character that its letter names, or for the character behind it |
| `EventFormats.ScanFirst` | mg_utils/mg_utils/event_log.py:19-19 | in any message the first key with an equals sign is found, with its value, and the search goes on behind it |
| `EventFormats.ScanNothing` | mg_utils/mg_utils/event_log.py:19-19 | where no key with an equals sign begins, nothing is found |
| `EventFormats.ValueExact` | mg_utils/mg_utils/event_log.py:19-19 | a value is a closed quotation if there is one, or else what is before the first blank |
| `EventLogs.EventIsOneLine` | mg_utils/mg_utils/event_log.py:22-54 | a printed event contains no newline or carriage return |
| `EventLogs.EvtIsFound` | mg_utils/mg_utils/event_log.py:57-71 | a message that begins like an event has an event name: parsing is total on every string |
| `EventLogs.PrintEvent` | mg_utils/mg_utils/event_log.py:35-54 | the loop over the fields prints them in order and refuses bad names and keys |
| `EventLogs.ReadEvent` | mg_utils/mg_utils/event_log.py:57-71 | the scanner loop computes the parse |
| `EventLogs.ReadPairs` | mg_utils/mg_utils/event_log.py:64-70 | the matches are taken from left to right, a later key overwriting an earlier one |
| `EventLogs.UnquoteBody` | mg_utils/mg_utils/event_log.py:74-85 | the loop undoes the escapes of a quoted body |
| `EventTimelines.MergeIsTimeline` | tools/common/event_timeline.py:100-113 | the merged list is sorted in time, has every key of the input once and shows it by its first record |
| `EventTimelines.MergeKeepsFirst` | tools/common/event_timeline.py:100-113 | the merge holds, ordered by time, exactly the records that are the first of their event: same time, node, name and fields |
| `EventTimelines.MergeIncremental` | tools/common/event_timeline.py:100-113 | merging the merges of two parts gives, record for record, the merge of the whole, ties in time included |
| `EventTimelines.Merge` | tools/common/event_timeline.py:100-113 | the loop with its set of seen keys computes the merge |
| `StableSorts.SortIsStable` | tools/common/event_timeline.py:107-107 | the sort orders the list, keeps its elements, and keeps those with equal keys in their order |
| `StableSorts.SortedUnique` | tools/common/event_timeline.py:107-107 | and a stable sort has only one result |
| `StatusTimelines.LevelTimeline.Update` | tools/common/status_timeline.py:41-58 | after every update all fields have the values defined over the whole history: the transitions are the first max_transitions of the changes that are among the first max_per_name of their name, recorded and dropped add up to all changes, and so on for counts, time per level and worst level |
| `StatusTimelines.LevelTimeline.Summary` | tools/common/status_timeline.py:60-76 | lists exactly the names that were updated, each with its last and its worst level, all its changes and its time in levels 1 to 3 |
| `StatusTimelines.CountersConserveTime` | tools/common/status_timeline.py:41-48 | the time per level of a name adds up to its last stamp minus its first |
| `StatusTimelines.ListedExact` | tools/common/status_timeline.py:50-58 | the changes eligible for the list are listed once each and in order |
| `StatusTimelines.ListedPerName` | tools/common/status_timeline.py:50-58 | of each name the first max_per_name changes are eligible, and all of them when there are fewer |
| `StatusTimelines.RecordedStep` | tools/common/status_timeline.py:50-58 | an eligible change is appended while there is room, and nothing else is |
| `StatusMeanings.ChangeExact` | tools/common/status_timeline.py:41-48 | a change is an update whose level is not that of the update of the same name before it |
| `StatusMeanings.RecordedExact` | tools/common/status_timeline.py:50-58 | each recorded transition has the stamp, name and message of its change, and the names of the levels before and after it |
| `StatusMeanings.RecordedLength` | tools/common/status_timeline.py:50-58 | all listed changes are recorded, or as many as there is room for |
| `StatusMeanings.LevelNamesAre` | tools/common/status_timeline.py:10-21 | the names of the levels |
| `StatusMeanings.WorstIsHighest` | tools/common/status_timeline.py:41-43 | the worst level is the highest that the name had, and never below zero |
| `StatusMeanings.NoTimeInLast` | tools/common/status_timeline.py:44-46 | time goes to the level that was left: a level that the name had only last has none |
| `StatusMeanings.AllTimeInOne` | tools/common/status_timeline.py:44-46 | a level that the name had at all updates but the last has all its time, in seconds |
| `StatusTimelines.LevelNamesDiffer` | tools/common/status_timeline.py:10-21 | the text of a transition identifies its levels |
| `WaypointEditors.SessionLoads` | mg_waypoint_navigation/scripts/waypoint_editor_node.py:189-252 | a session of any edits that starts from nothing or from a loaded file: what is saved is loaded back, exactly when no waypoint but the first is a through point whose tolerance is no number |
| `WaypointEditors.EverySessionLoads` | mg_waypoint_navigation/mg_waypoint_navigation/waypoint.py:297-311 | all lists of all sessions from a loaded file can be saved and loaded back, if and only if every tolerance in the file is a number |
| `WaypointEditors.CopyCanSpoil` | mg_waypoint_navigation/mg_waypoint_navigation/waypoint.py:305-311 | a concrete file with a blank tolerance that loads, and does not load any more after Copy Next |
| `WaypointEditors.AfterIsEdited` | mg_waypoint_navigation/scripts/waypoint_editor_node.py:189-252 | every edit does to the list what it says, and every index is again its position |
| `WaypointEditors.WhatIsNew` | mg_waypoint_navigation/scripts/waypoint_editor_node.py:193-202 | a new waypoint has the given pose, a reach tolerance of one, the default through tolerance, is a through point and has no actions; a copy has all that the original has |
| `WaypointEditors.WhatIsChanged` | mg_waypoint_navigation/scripts/waypoint_editor_node.py:315-323 | setting the kind of a point or dragging it changes that alone, and no other waypoint |
| `WaypointEditors.Inherited` | mg_waypoint_navigation/scripts/waypoint_editor_node.py:289-306 | an edited waypoint is new, or has the actions and the tolerance of one that was there |
| `WaypointEditors.Editor.Insert` | mg_waypoint_navigation/scripts/waypoint_editor_node.py:209-246 | inserts as list.insert does after making room, and keeps index equal to position exactly when the new waypoint carries the position it lands on and the index is not negative inside the list |
| `WaypointEditors.Editor.Remove` | mg_waypoint_navigation/scripts/waypoint_editor_node.py:204-207 | removes as list.pop does, also from the end, and renumbers; outside the list it changes nothing |
| `WaypointEditors.Editor.Reindex` | mg_waypoint_navigation/scripts/waypoint_editor_node.py:237-240 | sorts by index and numbers the objects, which are distinct, by position |
| `WaypointEditors.Editor.InsertIndex` | mg_waypoint_navigation/scripts/waypoint_editor_node.py:242-246 | sorts by index and moves every index from the given one on up by one |
| `WaypointEditors.Editor.SortByIndex` | mg_waypoint_navigation/scripts/waypoint_editor_node.py:234-235 | permutes the objects into the stable order of their indices |
| `WaypointEditors.Editor.AddDefault` | mg_waypoint_navigation/scripts/waypoint_editor_node.py:193-202 | appends a default waypoint with the next index |
| `WaypointEditors.Editor.CopyNextCallback` | mg_waypoint_navigation/scripts/waypoint_editor_node.py:289-293 | puts a copy of the clicked waypoint behind it, indices staying positions; raises, changing nothing, exactly when the clicked index is not spelled as an integer |
| `WaypointEditors.Editor.CopyPoseCallback` | mg_waypoint_navigation/scripts/waypoint_editor_node.py:295-306 | puts a default waypoint with the clicked pose behind it, or raises likewise |
| `WaypointEditors.Editor.DeleteCallback` | mg_waypoint_navigation/scripts/waypoint_editor_node.py:311-313 | removes the clicked waypoint, indices staying positions, or raises likewise |
| `WaypointEditors.Editor.SetThroughCallback` | mg_waypoint_navigation/scripts/waypoint_editor_node.py:315-323 | makes the clicked waypoint a through point or a target, and changes no other, or raises likewise |
| `WaypointEditors.Editor.DragMarker` | mg_waypoint_navigation/scripts/waypoint_editor_node.py:160-168 | moves the waypoint to where its marker was dragged, one lower, and changes no other |
| `WaypointEditors.Editor.ConvertWaypointList` | mg_waypoint_navigation/scripts/waypoint_editor_node.py:248-252 | collects the waypoints in order |
| `WaypointEditors.Editor.constructor` | mg_waypoint_navigation/scripts/waypoint_editor_node.py:254-264 | the editor over a loaded list holds its waypoints in distinct objects |
| `WaypointEditors.NameGivesIndex` | mg_waypoint_navigation/mg_waypoint_navigation/waypoint.py:225-226 | the callbacks read back the index that a marker was named after, and raise for the name of one that the file spells as a float or a bool |
| `WaypointFiles.LoadOfSaved` | mg_waypoint_navigation/mg_waypoint_navigation/waypoint.py:246-335 | what loading a saved list gives, for every list: it succeeds exactly when all actions validate, the indices are 0 up to the length in some order, and no waypoint but the first is a through point whose tolerance is no number |
| `Yamls.FalsyExactly` | mg_waypoint_navigation/mg_waypoint_navigation/waypoint.py:143-146 | the values that count as missing where an action requires something |
| `Yamls.SameNumbers` | sim_scenario_test/sim_scenario_test/spec.py:109-113 | a literal compares by value: a bool counts as zero or one, and an integer equals the float of the same value |
| `WaypointContents.LoadedIsRead` | mg_waypoint_navigation/mg_waypoint_navigation/waypoint.py:246-294 | every loaded waypoint has what an entry of the file says: index, position, heading and actions, and its settings or else the file's or the built-in ones |
| `WaypointContents.ActionLoadsExactly` | mg_waypoint_navigation/mg_waypoint_navigation/waypoint.py:82-141 | an action dict is accepted exactly when it has what its type needs |
| `WaypointFiles.SortedIsNumbered` | mg_waypoint_navigation/mg_waypoint_navigation/waypoint.py:328-335 | sorting by index puts every waypoint at its index exactly when the indices are a permutation of the positions |
| `WaypointFiles.InOrderLoads` | mg_waypoint_navigation/mg_waypoint_navigation/waypoint.py:246-335 | a saved list with index equal to position is loaded back exactly when its actions validate and its later through points have tolerances that are numbers; a waypoint then comes back the same up to z exactly when its actions are canonical |
| `WaypointFiles.WarningsExact` | mg_waypoint_navigation/mg_waypoint_navigation/waypoint.py:297-326 | collecting warnings raises exactly when a later through point has a tolerance that is no number; there is none exactly when no through point is last, has actions, or is within its tolerance of its predecessor |
| `WaypointFiles.WarnedExactly` | mg_waypoint_navigation/mg_waypoint_navigation/waypoint.py:297-326 | what is warned of at a waypoint: only a through point is, when it is closer to its predecessor than its tolerance, has actions, or is the last |
| `WaypointFiles.CollectWarnings` | mg_waypoint_navigation/mg_waypoint_navigation/waypoint.py:297-326 | the loop collects the warnings of the waypoints in order, or raises |
| `WaypointFiles.ActionRoundTrip` | mg_waypoint_navigation/mg_waypoint_navigation/waypoint.py:57-115 | an action survives to_dict and from_dict exactly when it is canonical: fields of other types at their defaults, an empty request or data an empty dict |
| `WaypointFiles.SavedAgain` | mg_waypoint_navigation/mg_waypoint_navigation/waypoint.py:57-115 | saving an action that was saved and loaded writes the same dict, canonical or not |
| `WaypointFiles.NormalValidates` | mg_waypoint_navigation/mg_waypoint_navigation/waypoint.py:117-141 | validation does not look at anything that saving drops |
| `WaypointFiles.LoadedStaysLoadable` | mg_waypoint_navigation/mg_waypoint_navigation/waypoint.py:233-335 | every file that loads can be saved and loaded again, and from then on does not change |
| `WaypointFiles.Load` | mg_waypoint_navigation/mg_waypoint_navigation/waypoint.py:233-294 | the loading loop computes the loaded list, sorted and checked, or raises, also where the comparison of a tolerance does |
| `WaypointFiles.ValidateIndices` | mg_waypoint_navigation/mg_waypoint_navigation/waypoint.py:328-335 | accepts exactly the lists whose indices are their positions |
| `ScenarioSpecs.ConvertExact` | sim_scenario_test/sim_scenario_test/spec.py:93-149 | for every registry, recursive or not, every type, value and object: the parser returns the object if and only if the value conforms to the type and denotes it |
| `ScenarioSpecs.BuildExact` | sim_scenario_test/sim_scenario_test/spec.py:49-73 | a record is built exactly from a mapping with declared keys only, every required one present, every value conforming, and an object that validates |
| `ScenarioSpecs.NamedExact` | sim_scenario_test/sim_scenario_test/spec.py:76-90 | a call is accepted exactly when its type is registered and its parameters denote its spec, or are none where it takes none |
| `ScenarioSpecs.DenotesOne` | sim_scenario_test/sim_scenario_test/spec.py:93-149 | a value denotes at most one object |
| `ScenarioLoaders.ParseScenario` | sim_scenario_test/sim_scenario_test/loader.py:38-49 | returns a scenario exactly for the documents that denote one, completed by the default expectation, in which every action at any depth names a defined obstacle |
| `ScenarioLoaders.CheckObstacles` | sim_scenario_test/sim_scenario_test/loader.py:43-48 | the loop over the calls decides whether every action at any depth names a defined obstacle |
| `ScenarioLoaders.IterCallsExact` | sim_scenario_test/sim_scenario_test/loader.py:52-65 | the iteration yields exactly the calls that some path through records, lists, dict values and specs leads to |
| `ScenarioLoaders.ObstacleOfExact` | sim_scenario_test/sim_scenario_test/loader.py:43-46 | only an action is checked, and only if its spec has a field named obstacle that holds a text |
| `ScenarioLoaders.ActionsNameObstacles` | sim_scenario_test/sim_scenario_test/loader.py:38-49 | in an accepted scenario the obstacle of every action, however deep, is a key of the obstacles in the file |
| `ScenarioLoaders.SomethingIsExpected` | sim_scenario_test/sim_scenario_test/loader.py:38-42 | an accepted scenario has at least one expectation and all of them are registered |

## Left out

- `lookupVelocity`: numerical differentiation that its own comments call approximate.
- `frame_chain`, `_chainAsVector`, `allFramesAs*` and the text of error messages: debug output. The kind of
  every tf2 error is modelled; the Python parsers and loaders either return a value or raise.
- NaN checks and the tolerance on quaternion length: a rotation is an exact unit quaternion or refused.
- Floating point: all arithmetic is exact; slerp is a parameter that keeps unit quaternions and returns its
  first argument at ratio zero.
- Overflow of times, frame ids and the request and callback counters, with the skipped handle values on
  wrap-around.
- `BufferCore::clear`, `frame_authority_` and the authority argument of `setTransform`.
- The name "NO_PARENT" is taken as reserved: publishers do not use it for a frame.
- The reads of `getLatestCommonTime` and `lookupFrameNumber` that run without the frame mutex are atomic
  steps of the queue model.
- A client mutex is the only thing that callbacks are modelled to take; what callbacks do otherwise,
  such as adding further requests from inside a callback, is not modelled.
- RequestWakeup.WakeupsNeverLost: assumes runs without loops, in which no rejected message reparents its child;
  without the latter it is false (`LostWakeups.WakeupCanBeLost`).
- EventLogs.EventIsOneLine: for names and keys without the trailing newline that the patterns let through.
- `TwistEstimator`, `shift_stamp`, `correct_twist`, `build_windows`, `fit_parameters` and the yaw of a
  quaternion: short formulas or numerical library calls.
- The text that `format_value` makes of numbers and other objects: a value is absent, a boolean or its text.
- Times of event records are integers instead of datetimes; parsing of log lines, filters, markdown and CSV output.
- `EventSummary`, `pick_timeline`, and the rounding of seconds in `summary`.
- Markers, colours and menus of the editor; the text of the loader's warnings.
- YAML text itself; that message fields must be floats is taken from the message types, which are not part
  of this model.
- The position in the file that scenario errors report; registration of types; frozen dataclasses as mapping keys.
- The localization supervisor, gate arbiter, waypoint sequencer, watchdogs, serial driver, obstacle
  detection, SLAM, launch files and tools around them: other parts of the repository, mostly I/O.
