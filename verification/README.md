# AsciiTerra, verified

A Dafny model of the networking library, the memory handles, the ring buffer, the game rules, the server's turns
and the quaternion algebra of AsciiTerra, with proofs of what they keep over every run.
`dafny verify dfyconfig.toml` checks everything.

## The parts

- `Messages`, `Channel`, `ChannelSafety`, `ChannelProgress`, `ChannelExactness`: a connection as two coupled state
  machines over byte wires. A step is a post, a posted task running, some bytes moving, a completed or failed write or
  read, or a wire being cut. Any message may be sent. Safety is over every run with failures anywhere; conservation and
  delivery are over failure-free runs. A message is well-formed when its size field is the length of its body.
- `ServerQueue`: any number of such connections filling one queue while `Update` empties it, each queue operation
  atomic, the emptiness test and the pop two separate operations.
- `Connections`: the same handlers as methods that update the fields of a connection, proved to compute the machine's
  steps.
- `RingBuffers`: the ring as a class over an array with a computed tail, refining a bounded deque; sequences are
  written back first.
- `Handles`, `HandleOperations`, `HandleEffects`, `HandleRuntimes`: the global count map, all handles and all live
  objects. An object owns member handles, whose destructors run when it is destroyed, so releases cascade. The
  specification says what an operation leaves behind; the runtime class runs the source's own order, in which a handle
  keeps its dangling address until everything its release set off is over.
- `GameRules`, `GameWorlds`, `GameActions`, `GameHistories`, `GameObjects`: inventories, damage, attacks and replay.
  Orders in which an unordered map may be visited are parameters, a new one at each entry of the log.
- `WorldMaps`, `TurnMachines`, `EnemyTurns`, `EnemyTurnEffects`, `GameServers`: map generation, action checks, the
  turn scheduler and the enemies' turn.
- `Replicas`: server and clients over a whole game, connected by the announcements.
- `Quaternions`, `Matrices`: the algebra over exact reals.

## Where code and documentation part, or the code surprises

The model follows the code.

- `LookAtIndex` is documented to reject indices outside the live ones; it accepts those below the tail of an unwrapped
  ring (`SpNetCommon/src/Containers/DynamirArray.h:125-127` against `484-489`).
- `Resize` copies `head + 1 * sizeof(ValueT)` bytes where `(head + 1) * sizeof(ValueT)` would be needed, so an
  unwrapped ring of larger cells keeps its contents only with head zero. The exact condition is proved.
- `GetInverse` is documented as the inverse but is the conjugate divided by the length, which inverts units only.
- The bounds test of a move uses `>`, so coordinates equal to the width or height pass it; the hills around the map are
  what keeps players on it.
- The check of an action looks at the player the action names, the action is applied to the sender.
- Coordinates 32768 apart compare equal, since the 16-bit absolute value of -32768 is negative.
- Assignment between shared handles releases before it reads the source.
- A read message without a body keeps the body of an earlier one, so sending it back as it is breaks the framing.
- An enemy found dead shifts the numbers of those behind it and is removed at the server only.
- `Move` falls through into `Attack`.

## Model

| member | source | states |
|---|---|---|
| `Channel.FramesDecodeUniquely` | `SpNetCommon/src/spiderNet.h:238-375` | Byte streams decode in one way: if whole frames start a stream of written frames, they are the first messages written (equal headers, equal bodies where a header announces one) and the rest of the stream is a prefix of the frames still to come |
| `ChannelSafety.RunKeepsInv` | `SpNetCommon/src/spiderNet.h:215-375` | The invariant of the coupled reading and writing machines holds after every run of posts, posted tasks, partial transfers, completions, failures and cuts |
| `ChannelSafety.StepKeepsInv` | `SpNetCommon/src/spiderNet.h:238-375` | Every single step keeps it, on both sides and in both directions |
| `ChannelSafety.SentIsWhatWasPosted` | `SpNetCommon/src/spiderNet.h:215-232` | What a side has sent is exactly what was passed to Send, in order |
| `ChannelSafety.ReceivedIsAPrefixOfSent` | `SpNetCommon/src/spiderNet.h:215-375` | In every run from a fresh connection, failures anywhere included and whatever is sent, the whole frames a side receives are a prefix of the bytes written for what the other side sent; if all of that was well-formed, the messages received are a prefix of the messages sent: same order, equal headers, equal bodies where the header announces one |
| `ChannelExactness.SentArrivesExactlyWhenWellFormed` | `SpNetCommon/src/spiderNet.h:215-375` | For every message, on either side, after any well-formed ones: in all runs in which the messages after it are well-formed too, what arrives is a prefix of what was sent, if and only if its size field is the length of its body |
| `ChannelExactness.Exchange` | `SpNetCommon/src/spiderNet.h:215-375` | Whatever whole frames the bytes written for some messages start with, some run of the machine delivers them |
| `ChannelExactness.EchoInventsAMessage` | `SpNetCommon/src/spiderNet.h:325-341` | How ill-formed messages come about: a bodyless read delivers a message with the body of the one before; the server sends it back as it does with pings, and the client receives a message that no one sent |
| `ChannelSafety.BytesAreConserved` | `SpNetCommon/src/spiderNet.h:215-312` | While nothing has failed, whatever was sent: received frames, partly read bytes, bytes under way, the unsent rest of the queue and the posted messages concatenate to exactly the bytes written for what was sent, and a write is outstanding exactly when the out-queue is nonempty |
| `ChannelProgress.TransferDecreases` | `SpNetCommon/src/spiderNet.h:238-375` | Every failure-free transfer step lowers the measure of undelivered work, whatever was sent |
| `ChannelProgress.TransfersRunOut` | `SpNetCommon/src/spiderNet.h:238-375` | Without further sends only as many transfer steps can follow as the measure says |
| `ChannelProgress.QuiescentHasDeliveredEverything` | `SpNetCommon/src/spiderNet.h:238-375` | When nothing failed and no transfer step is possible, each side has received every message passed to Send on the other, as long as those were well-formed |
| `ChannelSafety.ClosesExactlyWhen` | `SpNetCommon/src/spiderNet.h:195-375` | A side closes exactly when a posted close runs or its write or read fails, and from then on, in every run, not a byte leaves it or enters it |
| `ServerQueue.HandledIsAPrefixOfSent` | `SpNetCommon/src/spiderNet.h:644-661` | In every interleaving of any number of producing connections with the consumer of Update, no pop meets an empty deque, and the messages handled from a connection are in order a prefix of what it received and, if well-formed, of what its client passed to Send in the course of that very interleaving |
| `ServerQueue.SentIsWhatThePlayPosted` | `SpNetCommon/src/spiderNet.h:215-232` | What a connection has sent is what the interleaving posted on it |
| `ServerQueue.PlayKeepsInv` | `SpNetCommon/src/spiderNet.h:644-661` | Handled, in-hand and queued messages of each connection are exactly what it received, after every run |
| `ServerQueue.ConsumeKeepsInv` | `SpNetCommon/src/spThreadSafeQueue.h:31-73` | The separate emptiness test and pop lose and repeat nothing, though producers may push in between |
| `ServerQueue.UpdateAlone` | `SpNetCommon/src/spiderNet.h:644-661` | A call of Update that nothing interrupts handles the oldest messages in order, as many as the given number and the queue allow, leaves the others, and takes exactly one round for each |
| `ServerQueue.UpdateAloneReturns` | `SpNetCommon/src/spiderNet.h:644-661` | And it does return |
| `ServerQueue.OneCallInAnyInterleaving` | `SpNetCommon/src/spiderNet.h:644-661` | Whatever producers do meanwhile: one call handles at most the given number, and it returns if and only if it tests and finds the number reached or the queue empty |
| `ServerQueue.HandledInTheOrderOfArrival` | `SpNetCommon/src/spiderNet.h:644-661` | Over all connections together: what has arrived keeps its place, from queue to hand to handled, in every interleaving |
| `Connections.LockedQueue.PushBack` | `SpNetCommon/src/spThreadSafeQueue.h:49-56` | The item goes to the end; the others stay |
| `Connections.LockedQueue.PopFront` | `SpNetCommon/src/spThreadSafeQueue.h:31-37` | The first item is returned and removed; the others stay in order |
| `Connections.LockedQueue.Empty` | `SpNetCommon/src/spThreadSafeQueue.h:69-73` | Whether there is no item |
| `Connections.Connection.Send` | `SpNetCommon/src/spiderNet.h:215-232` | Posts a handler and nothing else; the queue is touched only when that runs |
| `Connections.Connection.RunTask` | `SpNetCommon/src/spiderNet.h:217-231` | The posted handler does what the channel machine says: append, and start a write exactly when none was outstanding |
| `Connections.Connection.OnHeaderWritten` | `SpNetCommon/src/spiderNet.h:244-280` | The completion handler refines the machine step: body next, or the next header, or idle; a failure closes the socket |
| `Connections.Connection.OnBodyWritten` | `SpNetCommon/src/spiderNet.h:290-311` | The same for the body write |
| `Connections.Connection.OnHeaderRead` | `SpNetCommon/src/spiderNet.h:323-350` | The handler refines the machine step: body read into the resized buffer, or delivery with the body left as it was; a failure closes the socket |
| `Connections.Connection.OnBodyRead` | `SpNetCommon/src/spiderNet.h:360-374` | The same for the body read |
| `Connections.Connection.AddToIncomingMessageQueue` | `SpNetCommon/src/spiderNet.h:469-483` | The message enters the shared queue with its owner on the server and without one on the client, and the next header read starts |
| `Connections.ServerInterface.Update` | `SpNetCommon/src/spiderNet.h:644-661` | With no producer meanwhile: handles the oldest messages in order, at most the given number, and leaves the others queued |
| `Messages.PopsUndoPushes` | `SpNetCommon/src/spNetMessage.h:35-67` | Pushing any list of values and popping the same sizes in reverse returns every value and restores the original body |
| `Messages.OperatorsKeepWellFormed` | `SpNetCommon/src/spNetMessage.h:45-64` | After a push or a pop the size field equals the body length, as long as that is below 2^32 |
| `Messages.PushAllAppends` | `SpNetCommon/src/spNetMessage.h:35-50` | Pushed values lie end to end behind what the body held; the id stays |
| `Messages.MessageBuffer.Push` | `SpNetCommon/src/spNetMessage.h:35-50` | The in-place push computes the pushed message |
| `Messages.MessageBuffer.Pop` | `SpNetCommon/src/spNetMessage.h:53-67` | The in-place pop returns the last bytes and computes the popped message |
| `Messages.HeaderRoundTrip` | `SpNetCommon/src/spNetMessage.h:7-12` | Header bytes parse back to the header, and only those bytes do |
| `Messages.HeaderOnTheWire` | `SpNetCommon/src/spNetMessage.h:7-12` | The id comes first and then the size, each with its lowest byte first |
| `RingBuffers.SlotsAreTheLiveCells` | `SpNetCommon/src/Containers/DynamirArray.h:554-575` | The cells read from the computed tail to the head with wrap-around are exactly the live cells, none twice |
| `RingBuffers.PushedFront` | `SpNetCommon/src/Containers/DynamirArray.h:322-339` | One cell up from the head is never a live cell, and writing it appends at the front |
| `RingBuffers.PushedBack` | `SpNetCommon/src/Containers/DynamirArray.h:272-294` | One cell down from the tail is never a live cell, it is the tail computed afterwards, and writing it appends at the back |
| `RingBuffers.LookAtIndexIsExactUnlessBelowAnUnwrappedTail` | `SpNetCommon/src/Containers/DynamirArray.h:482-491` | Live indices are always accepted; acceptance is exact if and only if the index is not below the tail of a nonempty unwrapped ring |
| `RingBuffers.ResizeKeepsContents` | `SpNetCommon/src/Containers/DynamirArray.h:506-552` | Resizing a wrapped ring to any capacity that holds the elements, or an unwrapped one of one-byte cells (or head zero) whose head stays below the new capacity, keeps the invariant and the contents |
| `RingBuffers.ResizeKeepsExactlyWhen` | `SpNetCommon/src/Containers/DynamirArray.h:522-542` | For every layout, capacity that holds the elements, and cell size: the copy stays inside the new block and contents and invariant are kept whatever that held, if and only if the ring is empty or wrapped, or its head index stays below the new capacity and is zero or counts one-byte cells |
| `RingBuffers.CellsCopied` | `SpNetCommon/src/Containers/DynamirArray.h:541` | How many whole cells head plus cell-size bytes cover, and that these reach the head only for one-byte cells or head zero |
| `RingBuffers.RingBuffer.GetNextHeadIndex` | `SpNetCommon/src/Containers/DynamirArray.h:586-595` | Invalid when full; zero by wrap-around when empty; otherwise in range and not live |
| `RingBuffers.RingBuffer.GetNextTailIndex` | `SpNetCommon/src/Containers/DynamirArray.h:597-606` | Invalid when full; beyond any block when empty; otherwise in range and not live |
| `RingBuffers.RingBuffer.PushFront` | `SpNetCommon/src/Containers/DynamirArray.h:322-339` | Appends at the front of the abstract sequence, changing one cell that was not live: cell zero of an empty ring, otherwise the one after the head; refused exactly when full |
| `RingBuffers.RingBuffer.PushBack` | `SpNetCommon/src/Containers/DynamirArray.h:272-294` | The same at the back, in the cell before the tail |
| `RingBuffers.RingBuffer.EmplaceFront` | `SpNetCommon/src/Containers/DynamirArray.h:342-359` | As PushFront, and hands back what the cell held |
| `RingBuffers.RingBuffer.EmplaceBack` | `SpNetCommon/src/Containers/DynamirArray.h:296-319` | As PushBack, and hands back what the cell held |
| `RingBuffers.RingBuffer.PopFront` | `SpNetCommon/src/Containers/DynamirArray.h:426-453` | Returns and removes the front element; no index subtraction underflows |
| `RingBuffers.RingBuffer.PopBack` | `SpNetCommon/src/Containers/DynamirArray.h:456-479` | Returns and removes the back element |
| `RingBuffers.RingBuffer.PeekFront` | `SpNetCommon/src/Containers/DynamirArray.h:362-369` | The front element, none when empty |
| `RingBuffers.RingBuffer.PeekBack` | `SpNetCommon/src/Containers/DynamirArray.h:372-379` | The back element, none when empty |
| `RingBuffers.RingBuffer.Run` | `SpNetCommon/src/Containers/DynamirArray.h:271-479` | Any sequence of pushes, emplaces, pops and clears leaves the contents, and pops the values, of a bounded deque |
| `RingBuffers.RingBuffer.LookAtIndex` | `SpNetCommon/src/Containers/DynamirArray.h:482-491` | The cell at an accepted index, nothing otherwise |
| `RingBuffers.RingBuffer.CopyWrapped` | `SpNetCommon/src/Containers/DynamirArray.h:524-533` | The two loops lay out the cells from the tail, then those up to the head, from cell zero on |
| `RingBuffers.RingBuffer.Resize` | `SpNetCommon/src/Containers/DynamirArray.h:506-552` | Fails without any change exactly when the capacity does not fit or the allocator refuses; otherwise keeps the contents under the condition above |
| `Handles.CascadeDestroysExactlyTheUnowned` | `SpNetCommon/src/Utils/Memory.h:599-637` | Destroying handles terminates through any cascade, destroys each object at most once, and destroys exactly the least set of objects closed under losing all owners; every count left equals the number of handles left |
| `Handles.CascadeKeepsInv` | `SpNetCommon/src/Utils/Memory.h:599-637` | Counts, unique ownership and membership hold after a cascade that starts anywhere in another one |
| `Handles.DetachKeepsCounts` | `SpNetCommon/src/Utils/Memory.h:599-634` | One release keeps every count equal to the number of shared handles holding the address |
| `HandleOperations.ReleaseDestroysExactlyTheUnowned` | `SpNetCommon/src/Utils/Memory.h:599-637` | The same for Release of a handle that goes on existing, wherever it lives |
| `HandleOperations.OperationKeeps` | `SpNetCommon/src/Utils/Memory.h:226-503` | Every operation (create, construct, copy, move, assign, reset, retrieve, release, destroy, for shared, unique and weak handles) keeps the global invariant and the balance of created and destroyed objects, and no object loses its last owner alive unless the caller retrieves it |
| `HandleEffects.OperationPoints` | `SpNetCommon/src/Utils/Memory.h:226-687` | Where everything points after every operation: the target holds what the source held, or the address given; what was moved from, released or retrieved is empty; a new object has one empty handle of each kind; every other handle holds what it held, or went with the object it lived in |
| `HandleEffects.OperationDestroysExactly` | `SpNetCommon/src/Utils/Memory.h:226-637` | Which objects an operation destroys: exactly those that had an owner and have none left; retrieving destroys nothing |
| `HandleOperations.OperationsKeep` | `SpNetCommon/src/Utils/Memory.h:226-690` | So does every sequence of operations |
| `HandleOperations.RefMapCountsTheHolders` | `SpNetCommon/src/Utils/Memory.h:547-637` | After any sequence of operations RefMap has an entry exactly when a shared handle holds the address, and the entry is their number |
| `HandleOperations.WeakIsValidExactlyWhenOwned` | `SpNetCommon/src/Utils/Memory.h:644-690` | A weak handle is valid exactly when its address still has a shared owner |
| `HandleOperations.EveryObjectIsDestroyedAtMostOnce` | `SpNetCommon/src/Utils/Memory.h:180-198` | Created objects are, with multiplicity, the destroyed and the live ones together; no owning handle refers to a destroyed object |
| `HandleOperations.AssignmentIsSafeExactlyWhen` | `SpNetCommon/src/Utils/Memory.h:402-441` | For handles wherever they live: a copy or move assignment is safe if and only if, before it, some set of objects takes in every object that releasing the target leaves without owners and neither target nor source lives in it |
| `HandleOperations.ResetIsSafeExactlyWhen` | `SpNetCommon/src/Utils/Memory.h:477-489` | The same for a reset with a raw pointer, where the object pointed to must be spared and free as well |
| `HandleOperations.ResetFromIsSafeExactlyWhen` | `SpNetCommon/src/Utils/Memory.h:491-503` | The same for a reset with a shared handle, where the by-value parameter is one more owner |
| `HandleOperations.UniqueResetIsSafeExactlyWhen` | `SpNetCommon/src/Utils/Memory.h:297-312` | The same for a reset with a unique handle, where the parameter has taken the object over |
| `HandleOperations.SurviveExactlyWhenSpared` | `SpNetCommon/src/Utils/Memory.h:599-637` | Any handles outlast a release if and only if it spares them in that sense |
| `HandleOperations.SteppingTwoLinksIsUnsafe` | `SpNetCommon/src/Utils/Memory.h:402-412` | The failing input: stepping two links along a list that nothing else holds |
| `HandleOperations.AssigningFromItsOwnObject` | `SpNetCommon/src/Utils/Memory.h:402-441` | A special case: from a handle inside the object held, assignment to a stack handle is safe if and only if that object has another holder |
| `HandleOperations.MovesKeepTheirSource` | `SpNetCommon/src/Utils/Memory.h:424-441` | Moving from a shared handle never destroys that handle |
| `HandleOperations.ResetFromARootIsAlwaysAllowed` | `SpNetCommon/src/Utils/Memory.h:491-503` | A special case: resetting a stack handle with a shared one is always safe |
| `HandleRuntimes.HandleRuntime.Delete` | `SpNetCommon/src/Utils/Memory.h:180-187` | Running the member handles' destructors one after the other, each with its own cascade, computes the cascade |
| `HandleRuntimes.HandleRuntime.ReleaseShared` | `SpNetCommon/src/Utils/Memory.h:599-637` | The in-place release, whose Data is cleared only after everything it set off, computes the released state |
| `HandleRuntimes.HandleRuntime.ReleaseUnique` | `SpNetCommon/src/Utils/Memory.h:372-381` | The same for a unique handle |
| `HandleRuntimes.HandleRuntime.SharedCopyConstruct` | `SpNetCommon/src/Utils/Memory.h:397-400` | Refines the copy construction and leaves nothing dangling |
| `HandleRuntimes.HandleRuntime.SharedMoveConstruct` | `SpNetCommon/src/Utils/Memory.h:424-428` | Acquire then release of the source refines the move |
| `HandleRuntimes.HandleRuntime.SharedFromUnique` | `SpNetCommon/src/Utils/Memory.h:419-422` | The unique handle gives up the object, the shared one becomes its only owner |
| `HandleRuntimes.HandleRuntime.SharedCopyAssign` | `SpNetCommon/src/Utils/Memory.h:402-412` | Refines the copy assignment, self-assignment included |
| `HandleRuntimes.HandleRuntime.SharedMoveAssign` | `SpNetCommon/src/Utils/Memory.h:430-441` | Refines the move assignment, self-assignment included |
| `HandleRuntimes.HandleRuntime.SharedReset` | `SpNetCommon/src/Utils/Memory.h:477-489` | Refines the reset with a raw pointer |
| `HandleRuntimes.HandleRuntime.SharedResetFrom` | `SpNetCommon/src/Utils/Memory.h:491-503` | Refines the reset with a handle passed by value, the parameter's construction and destruction included |
| `HandleRuntimes.HandleRuntime.AcquireShared` | `SpNetCommon/src/Utils/Memory.h:547-583` | Counts the address once more, or from one |
| `HandleRuntimes.HandleRuntime.SharedFromPointer` | `SpNetCommon/src/Utils/Memory.h:443-446` | Takes a live object over from a raw pointer |
| `HandleRuntimes.HandleRuntime.UniqueRelease` | `SpNetCommon/src/Utils/Memory.h:271-273` | Releasing a unique handle, on the stack or in an object, refines the specification |
| `HandleRuntimes.HandleRuntime.UniqueFromPointer` | `SpNetCommon/src/Utils/Memory.h:247-250` | A unique handle takes a live object over from a raw pointer |
| `HandleRuntimes.HandleRuntime.RetrieveResource` | `SpNetCommon/src/Utils/Memory.h:314-326` | The object is handed out and the handle left empty |
| `HandleRuntimes.HandleRuntime.UniqueMoveAssign` | `SpNetCommon/src/Utils/Memory.h:236-245` | Refines the move assignment of unique handles, self-assignment included |
| `HandleRuntimes.HandleRuntime.UniqueReset` | `SpNetCommon/src/Utils/Memory.h:282-295` | Refines the reset of a unique handle with a raw pointer |
| `HandleRuntimes.HandleRuntime.UniqueResetWith` | `SpNetCommon/src/Utils/Memory.h:297-312` | Refines the reset of a unique handle with another one, itself included |
| `HandleRuntimes.HandleRuntime.WeakSet` | `SpNetCommon/src/Utils/Memory.h:658-687` | Refines assignment and reset of a weak handle |
| `HandleRuntimes.HandleRuntime.WeakConstruct` | `SpNetCommon/src/Utils/Memory.h:648-656` | A weak handle takes the address and counts nothing |
| `HandleRuntimes.HandleRuntime.Destruct` | `SpNetCommon/src/Utils/Memory.h:448-454` | A stack handle's destructor computes the cascade from it |
| `GameRules.SameExactlyWhenEqualOrHalfTurnApart` | `SpNetCommon/src/spNetMath.h:1259-1261` | 16-bit coordinates compare equal exactly when each component is equal or 32768 apart |
| `GameRules.FindItem` | `SpNetCommon/src/spNetMETA.h:221-234` | The first nonempty slot of the type, or the invalid id when there is none |
| `GameRules.AddItem` | `SpNetCommon/src/spNetMETA.h:198-209` | The item goes into the first empty slot and nowhere when there is none; a weapon counts once and keeps its wear as modifier, anything else counts its uses; stocked inventories stay stocked |
| `GameRules.HurtSaturates` | `SpNetCommon/src/spNetMETA.h:255-261` | Damage takes hit points off down to zero, for all 32-bit damages |
| `GameRules.StrikeSpends` | `SpNetCommon/src/spNetMETA.h:481-509` | A blow costs one arrow exactly when a bow is equipped and finds one, and touches neither hit points, place nor the equipped slot |
| `GameRules.StrikeDeals` | `SpNetCommon/src/spNetMETA.h:481-509` | The damage: none with an empty hand, the power of a sword, for a bow the power of the first arrows or zero, otherwise one; and the price: one piece of those arrows, which are gone if it was the last |
| `GameWorlds.PlayersHitAreDistinct` | `SpNetCommon/src/spNetMETA.h:374-388` | In any visiting order the target list names exactly the players hit, none twice |
| `GameWorlds.EnemiesHitAreDistinct` | `SpNetCommon/src/spNetMETA.h:389-398` | The same for enemies |
| `GameWorlds.DamageInTurnHurtsEachOnce` | `SpNetCommon/src/spNetMETA.h:511-516` | Damage in turn over distinct ids hurts each of them once, in whatever order |
| `GameWorlds.BlowIsOrderFree` | `SpNetCommon/src/spNetMETA.h:374-476` | The outcome of a blow does not depend on the visiting order |
| `GameWorlds.PlayerActs` | `SpNetCommon/src/spNetMETA.h:335-350` | A move falls through into an attack in its direction, then one action is paid; the result is independent of the visiting order |
| `GameWorlds.EnemyActs` | `SpNetCommon/src/spNetMETA.h:352-372` | Moving and attacking are separate for enemies; independent of the visiting order |
| `GameActions.PlayerActsExactly` | `SpNetCommon/src/spNetMETA.h:335-526` | What an action of a player does to everyone, in every visiting order, told over coordinates and ids: the player moves modulo 2^16, every other player and every enemy one step further loses the damage down to zero, the player pays for the blow and spends an action; nothing else changes |
| `GameActions.EnemyActsExactly` | `SpNetCommon/src/spNetMETA.h:352-476` | The same for an enemy, which moves or attacks: every player and every enemy of another faction one step away is hurt, nobody else |
| `GameWorlds.ReplayIsOrderFree` | `AsciiTerra_Client/GameClient.cpp:477-489` | From equal worlds, replaying one log gives equal worlds whatever order each replica visits its players in, entry by entry |
| `GameHistories.EntryWears` | `SpNetCommon/src/spNetMETA.h:434-526` | One entry of the log, for every fighter: hit points stay at or above zero and never rise, nonempty slots keep a piece, arrows fall by exactly one when this fighter shoots one and stay otherwise, the equipped slot stays |
| `GameHistories.HistoryWears` | `SpNetCommon/src/spNetMETA.h:335-526` | The same over any run of actions, arrows falling by the number shot |
| `GameHistories.TableEnemiesStayArmed` | `SpNetCommon/src/spNetMETA.h:320-324` | Enemies copied from the table never lose the weapon in their equipped slot |
| `GameObjects.GameWorld.FindPlayers` | `SpNetCommon/src/spNetMETA.h:378-388` | The target loop computes the list of players hit |
| `GameObjects.GameWorld.DealDamage` | `SpNetCommon/src/spNetMETA.h:464-476` | The damage loops compute the worlds after damage in turn |
| `GameObjects.GameWorld.PlayerAttack` | `SpNetCommon/src/spNetMETA.h:481-526` | Finding, paying and damaging in place computes the order-free attack |
| `GameObjects.GameWorld.MakeApprovedAction` | `SpNetCommon/src/spNetMETA.h:335-350` | The in-place action computes the replayed one |
| `GameObjects.GameWorld.MakeEnemyAction` | `SpNetCommon/src/spNetMETA.h:352-372` | The in-place enemy action computes the replayed one |
| `WorldMaps.GenerateMap` | `AsciiTerra_Server/GameServer.cpp:346-362` | The nested loops put hills all around the map and nowhere inside, where the tiles are the numbers drawn, row by row |
| `WorldMaps.BoundsTestIsExactExceptBelow` | `AsciiTerra_Server/GameServer.cpp:309-313` | The bounds test never lets a negative index pass, and keeps it on the map if and only if the target is not in the row below the map nor right of its last tile |
| `WorldMaps.ApprovedExactlyInside` | `AsciiTerra_Server/GameServer.cpp:309-313` | With the hills around, a tile is approved if and only if it lies inside them, from however far away, and the check reads beyond the map if and only if the target is in the row below it or right of its last tile |
| `WorldMaps.MovesAreCheckedExactly` | `AsciiTerra_Server/GameServer.cpp:293-320` | What the check says of every move: approved, or reading beyond the map, exactly for living movers with such targets |
| `WorldMaps.AttacksAreCheckedExactly` | `AsciiTerra_Server/GameServer.cpp:295-320` | What the check says of everything else, over coordinates and ids: an attack is approved exactly for a living attacker with another player or an enemy one step away, an unknown player raises the exception, the map is not read, and ending a turn is never approved |
| `WorldMaps.TargetsAreFoundInEveryOrder` | `AsciiTerra_Server/GameServer.cpp:300-304` | Whether an attack finds a target does not depend on the visiting order |
| `TurnMachines.OnRequestKeepsInv` | `AsciiTerra_Server/GameServer.cpp:461-511` | Between messages the current player is on the roster and has between one and its maximum of actions left |
| `TurnMachines.RequestsAreAppliedExactlyWhen` | `AsciiTerra_Server/GameServer.cpp:461-511` | What the server makes of every request, told over coordinates: applied if and only if the sender has the turn and the player it names is alive and moves inside the hills or attacks somebody; otherwise nothing changes; with its last action the turn passes to the next of the roster, after the last one the enemies come first |
| `TurnMachines.RoundsAreFair` | `AsciiTerra_Server/GameServer.cpp:61-110` | In every run with a fixed roster, the actions applied between two consecutive AI turns are one full turn of every player, in roster order |
| `TurnMachines.EveryoneGetsAFullTurn` | `AsciiTerra_Server/GameServer.cpp:61-110` | Such a round holds exactly the maximum number of actions of each player of the roster, none of anybody else and no AI turn |
| `TurnMachines.ChoosingFirstBegins` | `AsciiTerra_Server/GameServer.cpp:69-72` | Without a client to come after, the first player of the roster starts the game with a full turn |
| `TurnMachines.ActionKeepsInsideExactlyWhen` | `AsciiTerra_Server/GameServer.cpp:465-476` | An accepted request leaves everyone inside the hills if and only if the sender's own target is one the check approves; the check looks at the player that the request names |
| `TurnMachines.PlayersStayInsideExactlyWhen` | `AsciiTerra_Server/GameServer.cpp:293-320` | Over every run: players who start inside are inside throughout if and only if every accepted request would have been approved for its sender |
| `TurnMachines.PlayersMoveInside` | `AsciiTerra_Server/GameServer.cpp:293-320` | Over every run in which movers name themselves, wherever players start and however far a move reaches: everyone ends inside the hills or where it was |
| `TurnMachines.UnitMovesAreChecked` | `AsciiTerra_Server/GameServer.cpp:309-313` | While players are inside, the check never reads beyond the map for moves of one tile |
| `TurnMachines.MisnamedSenderLeaves` | `AsciiTerra_Server/GameServer.cpp:465-476` | A request that fails the condition: naming a player further inside, the sender steps onto the hills |
| `EnemyTurns.TurnIsFollowedExactlyWhen` | `AsciiTerra_Server/GameServer.cpp:135-283` | With the enemies' choices left open, their numbering and the removal of the dead as written: a client in step before the AI turn is in step after it if and only if no enemy was found dead when its turn came |
| `EnemyTurnEffects.EnemiesTurnExactly` | `AsciiTerra_Server/GameServer.cpp:135-283` | The turn without its loop: an enemy acts if and only if it is alive when its turn comes; the world becomes what the deeds of those that acted, each at its own position, make of it; the clients are told the same deeds numbered without the dead; if somebody did not act, exactly the living stay, in their order |
| `EnemyTurns.LivingKeepsExactlyTheLiving` | `AsciiTerra_Server/GameServer.cpp:272-281` | Those left after the removal stand at the positions of the living, all of them, in increasing order |
| `EnemyTurns.RearmedExactlyWhen` | `AsciiTerra_Server/GameServer.cpp:147-155` | An empty-handed enemy takes its first sword, otherwise its first bow if it has arrows, otherwise nothing |
| `EnemyTurns.TheDeadIsSaidToMove` | `AsciiTerra_Server/GameServer.cpp:142-146` | The failing world: of two enemies the first is dead, the second moves and is announced as the first, which the server removes |
| `EnemyTurns.TheDeadMovesAtTheClients` | `AsciiTerra_Client/GameClient.cpp:540-558` | So at the clients the dead one moves |
| `EnemyTurns.EnemiesTurnKeepsRoster` | `AsciiTerra_Server/GameServer.cpp:135-283` | However the enemies choose, they move no player and leave roster and budgets alone, which the scheduler's theorems ask for |
| `EnemyTurns.TableEnemiesAreArmed` | `SpNetCommon/src/spNetMETA.h:320-324` | Enemies copied from the table satisfy what the turn asks for: sound, and armed, so none looks for another weapon |
| `EnemyTurns.ReplayInStep` | `AsciiTerra_Client/GameClient.cpp:477-489` | Replaying one log keeps worlds equal up to turn counters, which no action reads |
| `GameWorlds.ReplayNeedsNoOrders` | `AsciiTerra_Client/GameClient.cpp:477-489` | What a replay computes can be said without any visiting order |
| `GameWorlds.ReplaySucceedsExactlyWhen` | `AsciiTerra_Client/GameClient.cpp:540-558` | A log can be replayed if and only if it names no enemy beyond the list |
| `GameWorlds.StrangersAreIgnored` | `AsciiTerra_Client/GameClient.cpp:477-489` | Entries of players a client does not know change nothing |
| `Replicas.ClientsStayInStepExactlyWhen` | `AsciiTerra_Client/GameClient.cpp:477-558` | Over every run, whatever the players send and the enemies choose: a client that starts with the server's world and replays what it is told, in visiting orders of its own, ends with the server's world up to turn counters if and only if no enemy was ever found dead when its turn came |
| `Replicas.ServingIsPlaying` | `AsciiTerra_Server/GameServer.cpp:61-110` | The game with its modelled AI turns is a run of the scheduler, so its theorems hold of it |
| `GameServers.GameServer.CheckPlayerAction` | `AsciiTerra_Server/GameServer.cpp:293-320` | The check on the object and the tile array gives the verdict of the rules |
| `GameServers.GameServer.MakeAITurn` | `AsciiTerra_Server/GameServer.cpp:135-283` | In place: the living enemies act in list order, numbered without the dead, all their actions are told, and the dead are removed if one was met |
| `GameServers.GameServer.ChooseNextPlayerForTurn` | `AsciiTerra_Server/GameServer.cpp:61-110` | In place: the first player, or the next one in roster order, or the AI turn and the first one, with a full turn; the AI turn's actions are announced |
| `GameServers.GameServer.Decide` | `AsciiTerra_Server/GameServer.cpp:465-473` | A request is applied exactly when it comes from the current player, with actions left, and is approved; it fails exactly on an unknown player or a tile beyond the map |
| `GameServers.GameServer.OnActionRequest` | `AsciiTerra_Server/GameServer.cpp:461-511` | The message case computes the specified transition, AI turn included, and announces exactly what the specification tells |
| `Quaternions.MultiplyIsAssociative` | `SpNetCommon/src/spNetMath.h:1635-1656` | The quaternion product is associative |
| `Quaternions.NormsMultiply` | `SpNetCommon/src/spNetMath.h:1635-1688` | The self product of a product is the product of the self products |
| `Quaternions.ConjugateReverses` | `SpNetCommon/src/spNetMath.h:1725-1732` | The conjugate of a product is the product of the conjugates in opposite order |
| `Quaternions.RotationIsTheSandwich` | `SpNetCommon/src/spNetMath.h:1661-1680` | For every quaternion and vector the vector formula is q (v,0) q* less the vector times the excess of the self product over one |
| `Quaternions.RotationsCompose` | `SpNetCommon/src/spNetMath.h:1635-1680` | For units, rotating by p.Multiply(q) is rotating by q and then by p |
| `Quaternions.ConjugateRotatesBack` | `SpNetCommon/src/spNetMath.h:1664-1732` | For units the conjugate undoes the rotation |
| `Quaternions.RotationKeepsDotProducts` | `SpNetCommon/src/spNetMath.h:1664-1688` | Unit rotations keep dot products |
| `Quaternions.DotProductsAreKeptExactlyWhen` | `SpNetCommon/src/spNetMath.h:1664-1680` | The formula keeps all dot products if and only if the quaternion is a unit or has no axis |
| `Quaternions.NormalizedIsUnit` | `SpNetCommon/src/spNetMath.h:1692-1721` | Normalizing any quaternion with a nonzero length makes it a unit |
| `Quaternions.NormalIsZeroOnlyAtZero` | `SpNetCommon/src/spNetMath.h:1692-1698` | The length is zero only for the zero quaternion |
| `Quaternions.UnitsAreNormalized` | `SpNetCommon/src/spNetMath.h:1711-1721` | Normalizing leaves a quaternion alone if and only if it is a unit |
| `Quaternions.GetInverseInvertsExactlyUnits` | `SpNetCommon/src/spNetMath.h:1951-1954` | The product with GetInverse is the length, hence one if and only if the quaternion is a unit |
| `Quaternions.Quaternion.Conjugate` | `SpNetCommon/src/spNetMath.h:1736-1741` | In place, the conjugate |
| `Quaternions.Quaternion.Normalize` | `SpNetCommon/src/spNetMath.h:1702-1709` | In place, the normalized quaternion, a unit |
| `Quaternions.Quaternion.Inverse` | `SpNetCommon/src/spNetMath.h:1957-1960` | In place, what GetInverse returns |
| `Matrices.GetMatrixRotates` | `SpNetCommon/src/spNetMath.h:1892-1910` | For every quaternion and vector GetMatrix() times (v, t) through the 4x4 operator is (Multiply(v), 0) |
| `Matrices.ToRotationMatrixUndoesTheRotation` | `SpNetCommon/src/spNetMath.h:1748-1768` | For every nonzero quaternion the matrix has the transposed block of the normalized quaternion's GetMatrix(), undoes its rotation and keeps the fourth component |
| `Matrices.QuaternionProductIsMatrixProduct` | `SpNetCommon/src/spNetMath.h:1892-1910` | For units the matrix of a product is the 3x3 product of the matrices, in opposite order |
| `Matrices.MultiplyMatrices` | `SpNetCommon/src/spNetMath.h:2322-2333` | The loops compute the matrix product |
| `Matrices.ComputeDeterminant` | `SpNetCommon/src/spNetMath.h:2347-2356` | The accumulated sum is the determinant |
| `Matrices.DeterminantMultiplies` | `SpNetCommon/src/spNetMath.h:2322-2356` | The determinant of a product is the product of the determinants |
| `Matrices.DeterminantIsLinear` | `SpNetCommon/src/spNetMath.h:2347-2356` | The determinant is linear in the first row |
| `Matrices.DeterminantAlternates` | `SpNetCommon/src/spNetMath.h:2347-2356` | Swapping rows changes its sign |
| `Matrices.DeterminantOfIdentity` | `SpNetCommon/src/spNetMath.h:2347-2356` | And it is one at the identity |
| `Matrices.DeterminantIsOneExactlyWhen` | `SpNetCommon/src/spNetMath.h:1892-1910` | The matrix of a quaternion has determinant one if and only if the quaternion is a unit or has no axis, which is when it keeps dot products |

## Left out

- Sockets, timers, threads, console, keyboard and map display: foreign calls. Completions and failures of reads and
  writes are steps that may happen at any time.
- The validation handshake and `scramble`: each side's handshake word is taken to be on the wire before its first frame.
- `THSQueue::wait` and its wake-ups: the emptiness test is outside the blocking mutex, so no liveness follows.
- Removal of dead connections in `MessageClient` and `MessageAllClients`: the list of connections only grows here.
- Messages.HeaderRoundTrip: the header is copied as memory in the source; a 32-bit id and little-endian words are assumed.
- Messages.PopsUndoPushes: values are byte strings of their fixed size; how C++ lays out a struct is not modelled.
- RingBuffers.RingBuffer.PopFront: popping an empty ring returns a reference to a temporary in the source; here it is None. The same holds for PopBack.
- RingBuffers.RingBuffer.Resize: requires that the raw copy stays inside the new block; what a longer copy would overwrite is undefined in the source. ResizeKeepsExactlyWhen counts such a resize as one that does not keep the contents.
- Copying and moving ring buffers, `operator[]`, `at`, iteration, `EraseAllIfEqual`, the default constructor's block.
- The `MEMORY_MULTITHREAD_SAFE` branch of the handles: decrement and test are separate critical sections there.
- HandleRuntimes.HandleRuntime.ReleaseShared: handles are names in maps, not objects of their own, so aliasing between C++ objects is not modelled.
- HandleOperations.OperationKeeps: callers own what they pass: a raw pointer given to a handle is a live object no unique handle holds, an assignment's source and target survive the release that comes first (AssignmentIsSafeExactlyWhen and the lemmas beside it say when), and a unique reset between two empty handles, which the source reports as an error, does not occur. Allocation always succeeds, and counts do not wrap.
- Members of an object are default constructed and filled later; a constructor that throws is not part of this model.
- `RemoveItem`, `KillCallback`, item names beyond equality, and every item effect but damage.
- GameWorlds.PlayerActs: the four-bit counter wraps at zero; the assertion in `SetCurrentTurnActions` is not modelled. The server never gets there.
- GameHistories.HistoryWears: players and enemies share one record of hit points, equipment, inventory and place; the equipped slot is taken to exist.
- WorldMaps.GenerateMap: random numbers are a parameter.
- TurnMachines.RoundsAreFair: joining and leaving players, a maximum of actions outside 1..15, and a current player who is dead and so never spends an action are not modelled. The AI turn is any step that keeps roster, budgets and places, as the one of EnemyTurns does.
- EnemyTurns.TurnIsFollowedExactlyWhen: what each enemy chooses to do, and how often, is a parameter; the source's search for targets, which need not terminate, is not modelled. Enemies are armed throughout, as those from the table are, so the search for another weapon changes nothing.
- TurnMachines.UnitMovesAreChecked: the server accepts longer moves; MovesAreCheckedExactly says which of them read beyond the map.
- Connections.ServerInterface.Update: the method is proved for a call with no producer running meanwhile; ServerQueue.HandledIsAPrefixOfSent covers the others.
- Replicas.ClientsStayInStepExactlyWhen: that the announcements arrive is the channel's matter.
- Spawning, `GenerateEnemies`, chat, pings and the client's display.
- Quaternions.NormalizedIsUnit: the square root is a parameter constrained by its defining equation; a zero length, which the source divides by, is excluded. Rounding is not modelled.
- Trigonometric constructors, `Slerp`, matrices with a center, the 3x3 `operator+` and comparisons with a tolerance.
