# CoreNIC control-plane tables: a verified model

The App Master of this firmware keeps several fast tables in step with a plain
configuration by incremental edits, packed layouts and double buffering. This
project models those components in Dafny and proves that each agrees with a
plain specification: a map, a set or a sequence. `dafny verify dfyconfig.toml`
checks everything.

| file | component |
|---|---|
| `Common.dfy`, `Bits.dfy` | shared types; bitmaps packed 32 to a word |
| `NbiMemory.dfy` | word-swapped block copies and the two-copy write |
| `TableSetProtocol.dfy` | the two-copy write interleaved with readers |
| `MacMatchTable.dfy`, `MacMatchSync.dfy` | the two-way MAC match table, and the diff of port configurations on top of it |
| `ChanToPort.dfy`, `LoadBalance.dfy` | channel-to-port table; load-balance index arithmetic |
| `ActionList.dfy`, `ActionBuilders.dfy`, `VebLists.dfy` | action lists, their builders, the VEB lists and the strip removal |
| `ListMeanings.dfy` | what each built list holds, told by its decoded words alone |
| `VebTable.dfy`, `VebProgramming.dfy` | the (MAC, VLAN) table and the edits that program it |
| `VlanMembers.dfy` | VLAN membership rows |
| `MacLookup.dfy`, `MacLookupTable.dfy`, `MacLookupLocks.dfy` | the six-slot bucket, its code, and its code under concurrent callers |
| `LinkState.dfy`, `Reconfig.dfy`, `VfHostLists.dfy`, `AppMaster.dfy` | link state and reconfiguration messages: specification, runs, code |
| `PortLists.dfy`, `MessageResults.dfy` | what each message leaves of every port's lists, control words and link bits, and when it is accepted |
| `DumpSpec.dfy`, `DumpLines.dfy`, `DumpGenerator.dfy` | the dump image: specification and reader, meaning of the input lines, generator |

Code that works step by step is a class or method with the loops of the source,
proved equal to a specification function; the theorems are about runs of that
function. The top claims are `MacMatchSync.PortSync.Replay` (the diff is a
rebuild, on top of every layer below it), `TableSetProtocol.DoubleBufferSafety`,
`VebProgramming.RunIsExact`, `MacLookupLocks.CamIsMap`,
`Reconfig.LinksInEveryState`, `Reconfig.ListsInEveryRun` and `PortLists.PortsServed`
with `AppMaster.App.Serve`, and `DumpGenerator.WalkRecovers`. What the specification
functions compute is told a second time without them: list by list in `ListMeanings`,
message by message in `PortLists` and `MessageResults`.

## Conventions

- Words are integers below 2^32; masks, flag words and bitmaps are the sets of
  their one bits, so `|`, `& ~` and a bit test are union, difference and membership.
- NBI memory is addressed by words: byte address `a` is word `a / 4`. The three
  copy widths are one method with bursts of 2, 4 or 8 words.
- Hash functions, register ranges and the environment of a message (config BARs,
  SR-IOV area, results of hardware operations and of interrupts) are parameters;
  theorems hold for all of them. A VEB message is one atomic add or delete that
  may fail.
- vNICs are numbered VFs first, then one PF per port, then the control vNIC, on
  a single PCIe island. A bucket index and the key shifted by it determine a MAC.
- The control vNIC's capability mask is defined outside the repository and is a
  parameter, as are whether the platform offers a promiscuous PF and which host
  lists the firmware image initialises.
- `cfg_act_write_veb` is two methods: `WriteVeb` with a list, `ClearVeb` without.
- A level number and a level length must fit the 32-bit words that hold them for
  the image to give them back.

## Where the broad claim fails

Each of these is proved, with the exact condition where the source meets the claim.

- A failed MAC match update is forgotten by the next call: `MacMatchSync.PortSync.Update`
  and `MacMatchSync.PortSync.Twice`, with `MacMatchSync.FailureIsForgotten` as an instance.
- A channel range of several blocks that starts inside a block is cut short:
  `ChanToPort.ReachedAll`, `ChanToPort.SetThenGet`.
- A poll that gives up while a reader is on the old copy can tear its lookup:
  `TableSetProtocol.StepSafe`, `TableSetProtocol.DoubleBufferSafety`, with `TableSetProtocol.TimeoutTears` as an instance.
- The strip removal also fires on an RSS key that looks like a strip:
  `VebLists.StripUntagged`, `VebLists.PfListDelivers`.
- VLAN 0 with an unchanged MAC deletes the no-VLAN key it just added: `VebTable.WantedKeysPresent`.
- The VLAN row's minimum is stored two bits too low by a remove, which also
  compares before masking: `VlanMembers.FieldAfterRemove`, `VlanMembers.LoopFindsLeast`,
  `VlanMembers.RemoveShiftsMinimum`.
- Adding a present MAC while an earlier slot is free makes a second copy: `MacLookup.ReAdd`.
- Taking down a port other than PF 0's silences VFs that PF 0 still serves; a VF
  message revives the lists of a disabled PF 0; a VF message refused after its
  control word was stored can leave PF 0's lists out of date: `VfHostLists.StepLive`, `VfHostLists.StepPfSilent`,
  `Reconfig.StepLists`, `VfHostLists.StepSilent`.
- A VF forced down, or disabled, gets the link state of its PF: `LinkState.UpdateGives`.
- A specification that ends inside a level leaves a gap in the image: `DumpGenerator.TilesWhenEnded`.

## Model

| member | source | states |
|---|---|---|
| `Bits.Set` | firmware/apps/nic/app_private.c:33-48 | setting a vNIC's bit leaves every other vNIC's bit as it was, in the same word and in others |
| `Bits.Clear` | firmware/apps/nic/app_private.c:38-41 | the same for clearing |
| `NbiMemory.Nbi.FillBurst` | firmware/lib/npfw/_c/nbi_cpp.c:31-36 | the transfer registers of one command hold the next words of local memory, each 64-bit pair swapped |
| `NbiMemory.Nbi.CopyFromLmem` | firmware/lib/npfw/_c/nbi_cpp.c:17-70 | for bursts of 2, 4 or 8 words alike, NBI memory afterwards is the old one with exactly the given byte range replaced by the pair-swapped words |
| `NbiMemory.Nbi.CopyToLmem` | firmware/lib/npfw/_c/nbi_cpp.c:259-336 | reading with any width yields the pair-swapped range |
| `NbiMemory.CopyRoundTrip` | firmware/lib/npfw/_c/nbi_cpp.c:225-336 | what one width wrote, any width reads back unchanged |
| `NbiMemory.Nbi.TableCopyFromLmem` | firmware/lib/npfw/_c/nbipc_mem.c:47-93 | a table-set write stores the entry in both copies, makes the other copy the active one and changes nothing else |
| `NbiMemory.TableWriteBothCopies` | firmware/lib/npfw/_c/nbipc_mem.c:47-93 | after it both copies read back as written, whichever was active |
| `NbiMemory.TableWriteFrame` | firmware/lib/npfw/_c/nbipc_mem.c:47-93 | and any range apart from the two copies is untouched |
| `TableSetProtocol.StepSafe` | firmware/lib/npfw/_c/nbipc_mem.c:47-93 | a step of the writer or of a reader keeps the protocol invariant, and puts no reader on a copy being written, if and only if it is not a poll timeout while a reader is still on the old copy |
| `TableSetProtocol.DoubleBufferSafety` | firmware/lib/npfw/_c/nbipc_mem.c:47-93 | in every interleaving no reader is ever on a copy being written if and only if no poll gives up while one is still on the old copy; then each finished lookup saw one whole committed entry and both copies agree between writes |
| `TableSetProtocol.CommitsAtomically` | firmware/lib/npfw/_c/nbipc_mem.c:60-72 | what new lookups see changes at the register flip only, by the whole write, with or without a timeout |
| `TableSetProtocol.TimeoutTears` | firmware/lib/npfw/_c/nbipc_mem.c:74-92 | such a late timeout can do harm: a lookup that outlives all 100 polls can return half of each entry |
| `MacMatchTable.EntryAddEffect` | firmware/lib/npfw/_c/catamaran_utils.c:317-378 | adding to a two-way bucket updates or inserts that MAC only, keeps live slots distinct and hashed to the bucket, and fails exactly when the MAC is absent and both slots are taken |
| `MacMatchTable.EntryRemoveEffect` | firmware/lib/npfw/_c/catamaran_utils.c:415-459 | removing clears that MAC only and reports whether it was there |
| `MacMatchTable.StepRefines` | firmware/lib/npfw/_c/catamaran_utils.c:317-459 | one add or remove does to the table what it does to a map, for any hash, with the same result |
| `MacMatchTable.RunRefines` | firmware/lib/npfw/_c/catamaran_utils.c:317-459 | the same over every run of adds with non-zero results and removes |
| `MacMatchTable.RunIsMap` | firmware/lib/npfw/_c/catamaran_utils.c:317-459 | from the empty table: after every such run get is map lookup and every call returned what the map would |
| `MacMatchTable.RawLayout` | firmware/lib/npfw/_c/catamaran_utils.c:61-74 | the four words of an entry are two 64-bit halves, the second slot's first, each with the MAC above its 16-bit result |
| `MacMatchTable.FullIsTwoKeys` | firmware/lib/npfw/_c/catamaran_utils.c:330-370 | a bucket is full exactly when two keys of the map share its hash value |
| `MacMatchTable.StoredOnce` | firmware/lib/npfw/_c/catamaran_utils.c:317-378 | no MAC occupies two slots |
| `MacMatchTable.WriteBucket` | firmware/lib/npfw/_c/catamaran_utils.c:317-378 | storing a bucket through the table set replaces it in both copies and changes no other bucket |
| `MacMatchTable.LookUp` | firmware/lib/npfw/_c/catamaran_utils.c:381-412 | get is lookup in that map, -1 for a MAC that is not there |
| `MacMatchTable.AddEntry` | firmware/lib/npfw/_c/catamaran_utils.c:317-378 | the code on NBI memory performs the add on the table and keeps both copies equal |
| `MacMatchTable.RemoveEntry` | firmware/lib/npfw/_c/catamaran_utils.c:415-459 | likewise the remove |
| `MacMatchSync.GenerateInfo` | firmware/lib/npfw/_c/catamaran_app_utils.c:33-69 | each enabled port is recorded with the masks of all enabled ports that share its MAC, split by NBI |
| `MacMatchSync.ResultBits` | firmware/lib/npfw/_c/catamaran_app_utils.c:114-142 | a stored result has bit 8 + p for each port p of its mask and no other bit |
| `MacMatchSync.MergeClass` | firmware/lib/npfw/_c/catamaran_app_utils.c:54-62 | the inner loop merges the new port's mask into exactly the earlier ports of its class, in both directions |
| `MacMatchSync.DiffIsRebuild` | firmware/lib/npfw/_c/catamaran_app_utils.c:72-196 | from whatever tables, the result is that of a rebuild if and only if every add found room and every entry whose mask did not change was right before |
| `MacMatchSync.DiffEdits` | firmware/lib/npfw/_c/catamaran_app_utils.c:72-196 | if every add found room, each entry whose mask changed is that of the new configuration and every other entry is as it was |
| `MacMatchSync.PortSync.UpdateKnown` | firmware/lib/npfw/_c/catamaran_app_utils.c:108-135 | of a MAC known before and after, each NBI's entry is set to its new mask if that changed and left as it was otherwise, from whatever tables; it fails if and only if a due add meets a bucket that two other MACs fill |
| `MacMatchSync.InStepBits` | firmware/lib/npfw/_c/catamaran_app_utils.c:33-69 | tables in step answer for every MAC, NBI and bit by the configuration's fields alone |
| `MacMatchSync.PortSync.AddPhase` | firmware/lib/npfw/_c/catamaran_app_utils.c:85-150 | the add loop edits every MAC that a new port carries and no other, from whatever tables; it fails if and only if the tables before it block the change |
| `MacMatchSync.PortSync.RemovePhase` | firmware/lib/npfw/_c/catamaran_app_utils.c:152-193 | the remove loop drops exactly the MACs that no new port carries |
| `MacMatchSync.PortSync.ApplyDiff` | firmware/lib/npfw/_c/catamaran_app_utils.c:72-196 | it returns 0 if and only if no add that the change needs is refused by the tables it will meet, and the tables end up as the new configuration's if and only if, besides, every unchanged entry was right: both told from the tables before the call |
| `MacMatchSync.RoomUnblocked` | firmware/lib/npfw/_c/catamaran_app_utils.c:85-150 | from tables in step it suffices that no bucket is wanted by three MACs of the old and new configurations together |
| `MacMatchSync.PortSync.Update` | firmware/lib/npfw/_c/catamaran_app_utils.c:229-253 | the same for the whole call, with the new record stored in any case; from tables in step, if it returns 0, the answer for every MAC on each NBI has bit 8 + p set if and only if port p is enabled, carries that MAC and is on that NBI, and no other bit |
| `MacMatchSync.PortSync.UpdateInStep` | firmware/lib/npfw/_c/catamaran_app_utils.c:229-253 | from tables in step, whether a call succeeds and leaves them in step is decided by the two configurations alone; then every answer has exactly those port bits |
| `MacMatchSync.PortSync.Twice` | firmware/lib/npfw/_c/catamaran_app_utils.c:229-253 | repeating a call always returns 0 and repairs nothing: the tables are right if and only if the first call was not blocked and the unchanged entries were right |
| `MacMatchSync.PortSync.Replay` | firmware/lib/npfw/_c/catamaran_app_utils.c:229-253 | over every run of configurations from a table in step, all calls return 0 if and only if no change is blocked, and then each NBI's table is that of a from-scratch build of the last configuration: every answer has exactly the bits 8 + p of the enabled ports p on that NBI that carry the MAC |
| `MacMatchSync.NoRoomForThree` | firmware/lib/npfw/_c/catamaran_utils.c:317-412 | no table answers for three MACs with one hash value |
| `MacMatchSync.FailureIsForgotten` | firmware/lib/npfw/_c/catamaran_app_utils.c:245-250 | an instance: three MACs in one bucket, where the second call returns 0 and the tables are wrong |
| `ChanToPort.PutChanEffect` | deps/npfw/ppc_api/catamaran_defs.h:278-293 | writing one channel of a 16-byte block through its port and mode bytes leaves the other seven alone |
| `ChanToPort.BlockWords` | deps/npfw/ppc_api/catamaran_defs.h:278-293 | a block runs from its last channel to its first: each word holds an odd channel below the even one before it, each with its mode in the lower byte and its port in the higher |
| `ChanToPort.SetRange` | firmware/lib/npfw/_c/catamaran_utils.c:259-312 | set writes exactly the first channels that its count reaches, in both copies, and no other channel |
| `ChanToPort.GetRange` | firmware/lib/npfw/_c/catamaran_utils.c:206-256 | get returns those same channels |
| `ChanToPort.ReachedAll` | firmware/lib/npfw/_c/catamaran_utils.c:254-310 | the count reaches the whole range if and only if the range starts on a multiple of 8 or lies in one block |
| `ChanToPort.ReachedClosed` | firmware/lib/npfw/_c/catamaran_utils.c:254-310 | how many channels the loop takes before any block, in closed form |
| `ChanToPort.SetThenGet` | firmware/lib/npfw/_c/catamaran_utils.c:206-312 | set then get returns the entries written if and only if that condition holds; other channels are unchanged and both copies equal |
| `ChanToPort.InitTable` | firmware/lib/npfw/_c/catamaran_app_utils.c:199-226 | at start-up every channel of every port leads to that port on its own NBI |
| `LoadBalance.TargetOfEntry` | deps/npfw/ppc_api/catamaran_defs.h:257-274 | an entry's pool, sequencer and target determine it within its block, for all positive counts |
| `LoadBalance.EntryOfTarget` | deps/npfw/ppc_api/catamaran_defs.h:257-274 | and every triple is the image of the entry computed for it in any block |
| `LoadBalance.RoundIsBlock` | deps/npfw/ppc_api/catamaran_defs.h:262-274 | the extra index is constant exactly on an aligned block |
| `LoadBalance.BlockIsBijective` | deps/npfw/ppc_api/catamaran_defs.h:257-274 | each aligned block of as many entries as there are triples maps one-to-one onto all triples |
| `LoadBalance.NextEntry` | deps/npfw/ppc_api/catamaran_defs.h:257-274 | from entry to entry the pool moves on by one, the sequencer when the pools wrap and the target when the sequencers do, each by two where its own count wraps |
| `LoadBalance.FirstEntry` | deps/npfw/ppc_api/catamaran_defs.h:257-274 | entry 0 leads to the first of all three |
| `ActionList.ActionBuffer.Init` | firmware/apps/nic/app_config_tables.c:548-554 | the list is empty afterwards, although only the first four words are zeroed |
| `ActionList.ActionBuffer.AppendWord` | firmware/apps/nic/app_config_tables.c:607-619 | one word more, its pipeline bit set exactly when the previous action is the predecessor in opcode order |
| `ActionList.ActionBuffer.Append` | firmware/apps/nic/app_config_tables.c:622-932 | an operation of one or two words is added, keeping the words the encoding of the operations |
| `ActionList.DecodeEnc` | firmware/apps/nic/app_config_instr.h:72-126 | an encoded list reads back uniquely to its operations and arguments whatever the parameter words hold |
| `ActionList.ExecEnc` | firmware/apps/nic/app_config_instr.h:72-76 | running it by fall-through where the bit is set runs those same operations |
| `ActionList.EncMeans` | firmware/apps/nic/app_config_tables.c:607-619 | so opcode dispatch and fall-through dispatch agree on every list |
| `ActionList.RemoveStripMeans` | firmware/apps/nic/app_config_tables.c:834-850 | removing the strip in place leaves the same decoded operations without it, still dispatched alike |
| `ActionList.RemoveStripKeeps` | firmware/apps/nic/app_config_tables.c:834-850 | a list in which only the last word could look like a strip is left alone |
| `ActionList.ActionBuffer.RemoveStripVlan` | firmware/apps/nic/app_config_tables.c:834-850 | the loop over the array computes that removal |
| `ActionBuilders.BuildCtrl` | firmware/apps/nic/app_config_tables.c:935-949 | the control vNIC's list, empty for another vNIC type |
| `ActionBuilders.BuildPf` | firmware/apps/nic/app_config_tables.c:952-988 | the PF's host list; like every list here within 16 words and reading back as these operations |
| `ActionBuilders.BuildVf` | firmware/apps/nic/app_config_tables.c:991-1037 | the VF's host list |
| `ActionBuilders.BuildHostDown` | firmware/apps/nic/app_config_tables.c:1039-1045 | the host drop list |
| `ActionBuilders.BuildNbi` | firmware/apps/nic/app_config_tables.c:1048-1093 | the PF's wire list |
| `ActionBuilders.BuildWireDown` | firmware/apps/nic/app_config_tables.c:1096-1102 | the wire drop list |
| `ActionBuilders.BuildVebPf` | firmware/apps/nic/app_config_tables.c:1105-1131 | the PF's VEB list |
| `ActionBuilders.BuildVebVf` | firmware/apps/nic/app_config_tables.c:1134-1183 | the VF's VEB list, in promiscuous mode with a copy for the PF |
| `ListMeanings.ChecksumFields` | firmware/apps/nic/app_config_tables.c:797-811 | which bits of a CHECKSUM word say outer, inner and complete |
| `ListMeanings.TxHostFields` | firmware/apps/nic/app_config_tables.c:883-907 | queue, island, capped buffer size, multicast and continue fields of TX_HOST |
| `ListMeanings.TxWireFields` | firmware/apps/nic/app_config_tables.c:867-880 | queue, multicast and continue fields of TX_WIRE |
| `ListMeanings.RxHostFields` | firmware/apps/nic/app_config_tables.c:629-647 | frame size and checksum bits of RX_HOST |
| `ListMeanings.RxWireFields` | firmware/apps/nic/app_config_tables.c:814-831 | VXLAN, NVGRE and checksum fields of RX_WIRE |
| `ListMeanings.MacFields` | firmware/apps/nic/app_config_tables.c:650-699 | a lookup or match carries the MAC, upper 16 bits beside the opcode |
| `ListMeanings.CodeOrder` | firmware/apps/nic/app_config_instr.h:104-126 | the opcodes number the worker's code in its order |
| `ListMeanings.WireFallsThrough` | firmware/apps/nic/app_config_tables.c:607-619 | an instance: a port list with checksum and RSS but without the VEB is dispatched by opcode once and then falls through to its end |
| `ListMeanings.NbiIsWireList` | firmware/apps/nic/app_config_tables.c:1048-1093 | read back, a wire list holds in this order and under exactly these settings: RX_WIRE, VEB_LOOKUP with the VEB up or else DST_MAC_MATCH of the BAR MAC unless promiscuous, CHECKSUM, EBPF iff BPF is on, RSS iff RSS or BPF is on, TX_HOST to the PF's queue, and the multicast tail with the VEB up; every field is told |
| `ListMeanings.WireDelivers` | firmware/apps/nic/app_config_tables.c:1080-1086 | so the first transmit of any kind is the one to the PF's queue |
| `ListMeanings.PfIsHostList` | firmware/apps/nic/app_config_tables.c:952-988 | the same for the PF's host list: VEB_LOOKUP and the outer checksum only with the VEB up, TX_WIRE always |
| `ListMeanings.VfIsHostList` | firmware/apps/nic/app_config_tables.c:991-1037 | the same for the VF's: PUSH_VLAN iff it has a tag and SRC_MAC_MATCH iff it is checked, both before the lookup, TX_WIRE, then TX_HOST to PF 0 |
| `ListMeanings.CtrlIsList` | firmware/apps/nic/app_config_tables.c:935-949 | the control list receives from the host and hands over with CMSG |
| `ListMeanings.VebPfIsList` | firmware/apps/nic/app_config_tables.c:1105-1131 | the same for the PF's VEB list |
| `ListMeanings.VebVfIsList` | firmware/apps/nic/app_config_tables.c:1134-1183 | the same for the VF's: strip iff tagged, TX_HOST to the VF, and only under a promiscuous PF the copy to PF 0 with the PF's own checksum, BPF and RSS |
| `ListMeanings.MeansVebVfList` | firmware/apps/nic/app_config_tables.c:1134-1183 | any words that mean those operations are such a list |
| `VebLists.BufferMeans` | firmware/apps/nic/app_config_tables.c:607-1183 | every finished list fits in 16 words and means its operations under both dispatches |
| `VebLists.RemoveStripChanges` | firmware/apps/nic/app_config_tables.c:834-850 | on a list ending in a one-word operation other than a strip the removal changes nothing if and only if no opcode and no parameter word looks like a strip |
| `VebLists.StripTagged` | firmware/apps/nic/app_config_tables.c:834-850 | on a VF list built with a tag it gives the list built without one |
| `VebLists.StripUntagged` | firmware/apps/nic/app_config_tables.c:834-850 | on a VF list built without a tag it changes nothing if and only if there is no RSS key that looks like a strip |
| `VebLists.VfListDelivers` | firmware/apps/nic/app_config_tables.c:1134-1183 | a VF's stored list delivers to the VF first, also after the removal, whatever the RSS key |
| `VebLists.PfListDelivers` | firmware/apps/nic/app_config_tables.c:1105-1131 | the PF's does too, after the removal if and only if its RSS key does not look like a strip |
| `VebTable.ReprogramEffect` | firmware/apps/nic/app_config_tables.c:1208-1261 | what reprogramming a vNIC leaves under every key: the new keys with their lists, the old MAC's stale keys gone, all others as they were |
| `VebTable.WantedKeysPresent` | firmware/apps/nic/app_config_tables.c:1219-1258 | the wanted keys are all there afterwards if and only if it is not VLAN 0 with an unchanged MAC |
| `VebTable.MakeBeforeBreak` | firmware/apps/nic/app_config_tables.c:1219-1258 | after any number of the messages: nothing old is missing before all adds are in, and for VLAN not 0 a key wanted before and after is never missing |
| `VebTable.AddsEffect` | firmware/apps/nic/app_config_tables.c:1219-1234 | the add loop sets exactly the wanted keys |
| `VebTable.DeletesEffect` | firmware/apps/nic/app_config_tables.c:1246-1258 | the delete loop removes exactly the stale keys |
| `VebProgramming.Veb.AddWanted` | firmware/apps/nic/app_config_tables.c:1219-1234 | the loop sends those adds in order and stops at the first that fails |
| `VebProgramming.Veb.DeleteStale` | firmware/apps/nic/app_config_tables.c:1246-1258 | the loop sends only stale deletes, all of them if it reports success |
| `VebProgramming.Veb.WriteVeb` | firmware/apps/nic/app_config_tables.c:1208-1261 | which messages got through for each return code, and when the stored key changes |
| `VebProgramming.Veb.ClearVeb` | firmware/apps/nic/app_config_tables.c:1208-1261 | the call without a list, whatever the unset VLAN variable holds: which deletes got through, all of them if it reports success |
| `VebProgramming.Veb.VfUp` | firmware/apps/nic/app_config_tables.c:1264-1323 | nothing is sent if and only if the MAC change is barred or the chosen MAC, the PF's unless it set none or trusts the VF, is zero or multicast; the call is refused exactly then or when a message fails; success reprograms the VF's keys with its list |
| `VebProgramming.Veb.PfUp` | firmware/apps/nic/app_config_tables.c:1352-1390 | the same for the PF with its BAR MAC and no VLAN |
| `VebProgramming.StepExact` | firmware/apps/nic/app_config_tables.c:1206-1390 | each successful up or down keeps the VEB exact: every owned key has its owner's list, and no other key is there |
| `VebProgramming.VebIsExact` | firmware/apps/nic/app_config_tables.c:1206-1390 | after every legal run (mac, vlan) is in the VEB if and only if a live vNIC owns mac with that VLAN or with none |
| `VebProgramming.RunIsExact` | firmware/apps/nic/app_config_tables.c:1206-1390 | the same for runs of the calls themselves: a key is there if and only if the last call for some vNIC was an up that reaches it, a VF whose PF set a MAC and does not trust it under exactly that MAC and any other VF under exactly its BAR MAC, each with its VLAN if it has one |
| `VebProgramming.VfDelivered` | firmware/apps/nic/app_config_tables.c:1134-1323 | and after every legal run of calls the entry under each key of a live VF delivers to that VF |
| `VebProgramming.VfEntry` | firmware/apps/nic/app_config_tables.c:1134-1323 | and the entry is the VF's list field by field; under the no-VLAN key the one without a strip, unless an untagged VF's promiscuous PF has an RSS key that looks like a strip |
| `VebProgramming.PfDelivered` | firmware/apps/nic/app_config_tables.c:1105-1390 | under each key of a live PF 0 to the PF, if and only if it is not the no-VLAN key with an RSS key that looks like a strip; under every other key it is the PF's list field by field |
| `VebProgramming.OwnerIsLatest` | firmware/apps/nic/app_config_tables.c:1206-1390 | a vNIC is live exactly when its last call was an up, and owns the MAC, VLAN and built list of that call |
| `VebProgramming.DoCall` | firmware/apps/nic/app_config_tables.c:1264-1390 | each successful call of the code is one event of those runs |
| `VebProgramming.Replay` | firmware/apps/nic/app_config_tables.c:1206-1390 | any run of calls that all succeed on a fresh table leaves the table of that run |
| `VlanMembers.VlanTable.AddMember` | firmware/apps/nic/nic_tables.c:32-56 | an add edits its row only; an out-of-range VLAN is refused |
| `VlanMembers.VlanTable.RemoveMember` | firmware/apps/nic/nic_tables.c:59-93 | a remove edits all 4096 rows |
| `VlanMembers.Replay` | firmware/apps/nic/nic_tables.c:32-93 | any run of calls on a fresh table leaves in each row what the run makes of it |
| `VlanMembers.MembershipExact` | firmware/apps/nic/nic_tables.c:32-93 | over every run with at most 56 VFs, a bit is set if and only if an add of it came after its last remove |
| `VlanMembers.OnlyVfs` | firmware/apps/nic/nic_tables.c:32-93 | and no bit beyond the VFs ever is |
| `VlanMembers.MinimumExact` | firmware/apps/nic/nic_tables.c:32-56 | in a row empty at the last remove the top six bits hold the least masked size added since |
| `VlanMembers.FieldFitsAll` | firmware/apps/nic/nic_tables.c:32-56 | with buffers below 64 units of 256 bytes the field is the most units that fit every buffer added since |
| `VlanMembers.RemoveShiftsMinimum` | firmware/apps/nic/nic_tables.c:76-88 | with all sizes below 64 units the field is a quarter of the members' least size, so right if and only if that is 0 |
| `VlanMembers.LeastSizeClosed` | firmware/apps/nic/nic_tables.c:77-85 | the loop computes the least unmasked size of the members, at most 63 |
| `VlanMembers.LoopFindsLeast` | firmware/apps/nic/nic_tables.c:83 | that is their least masked size if and only if no member of 64 units or more has a masked size below it |
| `VlanMembers.FieldAfterRemove` | firmware/apps/nic/nic_tables.c:76-88 | the field is the members' least masked size if and only if some member has less than one unit, or the least masked size of the members of 64 units or more is a quarter of the least size, at most 63 |
| `VlanMembers.LargeMayCancel` | firmware/apps/nic/nic_tables.c:83-86 | the two faults can cancel: one member of 79 units |
| `MacLookup.PerformCases` | firmware/apps/nic/app_mac_lkup.c:101-291 | the chain of reads, tests and write-backs, from first slot to last |
| `MacLookup.PerformIsSlotOp` | firmware/apps/nic/app_mac_lkup.c:101-465 | on six slots, although three results share a line and one is split, it is "the first slot that takes it" |
| `MacLookup.AddAbsent` | firmware/apps/nic/app_mac_lkup.c:101-291 | adding an absent key stores it, or fails exactly when all six slots are live; other keys keep their results |
| `MacLookup.DelEffect` | firmware/apps/nic/app_mac_lkup.c:322-465 | deleting removes the key and reports whether it was there |
| `MacLookup.ReAdd` | firmware/apps/nic/app_mac_lkup.c:109-116 | adding a live key again keeps one copy if and only if no earlier slot is free |
| `MacLookup.HarmlessReAdd` | firmware/apps/nic/app_mac_lkup.c:101-291 | with no free slot before it, re-adding a key replaces its result and nothing else |
| `MacLookup.SecondCopySurvives` | firmware/apps/nic/app_mac_lkup.c:109-116 | otherwise the key is still found after it has been deleted |
| `MacLookup.CamIsGet` | firmware/apps/nic/app_mac_lkup.c:101-465 | a CAM that takes the first equal key, in use or not, answers as the map |
| `MacLookupTable.MacTable.BucketWait` | firmware/apps/nic/app_mac_lkup.c:40-58 | the loop ends with the lock held, on the bucket as its last holder left it |
| `MacLookupTable.MacTable.Add` | firmware/apps/nic/app_mac_lkup.c:75-292 | whatever the holder of the lock left in the bucket, the code leaves the bucket and return code of the chain, the lock free, other buckets and lock bits as they were |
| `MacLookupTable.MacTable.Del` | firmware/apps/nic/app_mac_lkup.c:297-466 | likewise the delete |
| `MacLookupLocks.StepKeeps` | firmware/apps/nic/app_mac_lkup.c:40-69 | each memory access of any thread keeps at most one thread in a bucket and every pending call's outcome |
| `MacLookupLocks.OwnLockBitOnly` | firmware/apps/nic/app_mac_lkup.c:40-69 | no thread changes the lock bit of a bucket that is not its own, though 32 share a word |
| `MacLookupLocks.CallsLinearise` | firmware/apps/nic/app_mac_lkup.c:40-69 | in every interleaving the finished calls and unlocked buckets are those of performing the calls one by one in unlock order: no update of the shared line is lost |
| `MacLookupLocks.HistoryIsMap` | firmware/apps/nic/app_mac_lkup.c:75-466 | a history keeps every bucket in order all along if and only if it has no re-add with a free slot before the live one, and then leaves exactly a finite map |
| `MacLookupLocks.NoReAddNoHarm` | firmware/apps/nic/app_mac_lkup.c:75-466 | a history that never re-adds a present MAC has none |
| `MacLookupLocks.CamIsMap` | firmware/apps/nic/app_mac_lkup.c:75-466 | so after every interleaving without such a re-add the CAM answers as that map |
| `LinkState.LinkTable.SetLeader` | firmware/apps/nic/app_control_lib.c:296-306 | one port's list gets or loses the VF and every other port's list loses it |
| `LinkState.LinkTable.UpdateVfLscList` | firmware/apps/nic/app_control_lib.c:277-331 | the whole new link state after a VF reconfiguration |
| `LinkState.LinkTable.CheckVfs` | firmware/apps/nic/app_master_main.c:398-436 | one pass over the vNICs is that of the specification |
| `LinkState.LinkTable.Check` | firmware/apps/nic/app_master_main.c:438-536 | so is a whole link check |
| `LinkState.LinkTable.HandlePendingInterrupts` | firmware/apps/nic/app_master_main.c:547-564 | and a retry of pending interrupts |
| `LinkState.NotifyVfsEffect` | firmware/apps/nic/app_master_main.c:398-436 | the followers of the port get its link state in bitmap and BAR, and no other vNIC changes |
| `LinkState.LscCheckVf` | firmware/apps/nic/app_master_main.c:438-536 | what a check does to a VF, in terms of the state before: only a follower, only on a change, only while the PF is enabled |
| `LinkState.LscCheckPf` | firmware/apps/nic/app_master_main.c:438-536 | what it does to each PF |
| `LinkState.UpdateVfKeeps` | firmware/apps/nic/app_control_lib.c:277-331 | a VF update keeps the link invariant |
| `LinkState.LscCheckKeeps` | firmware/apps/nic/app_master_main.c:438-536 | so does a check of any port |
| `LinkState.HandlePendingKeeps` | firmware/apps/nic/app_master_main.c:547-564 | and a retry |
| `LinkState.HandlePendingEffect` | firmware/apps/nic/app_master_main.c:547-564 | an interrupt stays pending if and only if it was, its vNIC is enabled and it fails again |
| `LinkState.InvMeans` | firmware/apps/nic/app_control_lib.c:277-331 | the invariant in words: one leader, followers agree with a PF that is up, forced up is up, forced down keeps the bit it was given, BAR equals bit |
| `LinkState.UpdateGives` | firmware/apps/nic/app_control_lib.c:308-321 | a VF update gives the PF's link state of the moment, also in forced-down mode, unless it forces the VF up |
| `LinkState.UpdateVfEffect` | firmware/apps/nic/app_control_lib.c:277-331 | what an update leaves of every vNIC's five bits: only the VF's change, and its pending bit is set if its BAR is enabled |
| `LinkState.LscCheckPending` | firmware/apps/nic/app_master_main.c:490-536 | which interrupts a check leaves pending: the PF's if its port changed or it was pending, and the followers' if the port changed, each exactly if it cannot be sent and only while the PF is enabled; every other bit stays |
| `LinkState.LscCheckOthers` | firmware/apps/nic/app_master_main.c:438-536 | a check changes no other PF, nor the control vNIC |
| `Reconfig.MaskedChangesNothing` | firmware/apps/nic/app_control_lib.c:365-407 | remark: a message outside the capability or update mask changes no control word, list or link bit |
| `Reconfig.LinksInEveryState` | firmware/apps/nic/app_control_lib.c:358-571 | in every reachable state, after any mix of messages (also refused ones), link checks and retries: each VF follows at most one port; a VF that its last accepted message set to automatic has PF 0's link bit while PF 0 counts as up; one forced up is up; one forced down or disabled has the bit that PF 0 had at that message; a BAR bit equals its link bit |
| `Reconfig.RunRecords` | firmware/apps/nic/app_control_lib.c:484-571 | over every run the link record of a VF is that of its last accepted message |
| `Reconfig.BootDrops` | firmware/apps/nic/app_config_instr.h:459-472 | every wire and host list drops at boot, from the image or as zeroed memory |
| `Reconfig.NbiLooksUp` | firmware/apps/nic/app_config_tables.c:1048-1093 | a wire list looks up the VEB if and only if it was built with the VEB up |
| `Reconfig.PfLooksUp` | firmware/apps/nic/app_config_tables.c:952-988 | so does a PF host list |
| `Reconfig.DownListsDrop` | firmware/apps/nic/app_config_tables.c:1039-1102 | drop lists read a packet and drop it |
| `Reconfig.PfEstablishes` | firmware/apps/nic/app_control_lib.c:389-482 | an accepted message that leaves PF 0 enabled or disables it makes PF 0's lists agree with the VFs from any state |
| `Reconfig.VfEstablishes` | firmware/apps/nic/app_control_lib.c:484-571 | so does every accepted VF message |
| `Reconfig.PfKeepsLists` | firmware/apps/nic/app_control_lib.c:389-482 | no PF message breaks the agreement, accepted or refused at whatever point |
| `Reconfig.StepLists` | firmware/apps/nic/app_control_lib.c:358-571 | a step, accepted or refused, keeps the agreement if and only if it is not a VF message refused before the rebuild, with PF 0's lists not dropping, whose stored word changes whether any VF is enabled |
| `Reconfig.ListsInEveryRun` | firmware/apps/nic/app_control_lib.c:358-571 | over every run, refused messages included, the lists agree all along if and only if no step is such a message |
| `Reconfig.ListsInEveryAcceptedRun` | firmware/apps/nic/app_control_lib.c:358-571 | over every accepted run PF 0's two lists both drop, or both look up the VEB exactly when some VF control word is enabled |
| `VfHostLists.StepSilent` | firmware/apps/nic/app_control_lib.c:531-551 | a step, accepted or refused, keeps disabled VFs silent if and only if it is not a disable refused for its MAC update while the VF's list is live |
| `VfHostLists.DisabledVfsDrop` | firmware/apps/nic/app_control_lib.c:484-571 | over every run no queue of a disabled VF ever does anything but drop if and only if no message of that kind occurs; accepted messages never are |
| `VfHostLists.StepLive` | firmware/apps/nic/app_control_lib.c:468-475 | a step, accepted or refused, keeps every enabled VF live under an enabled PF 0 if and only if it is neither an enable of a silent VF that the VEB refuses nor the take-down of another port that reaches an enabled VF |
| `VfHostLists.AcceptedLive` | firmware/apps/nic/app_control_lib.c:468-475 | for accepted steps: if and only if it does not take down another port while PF 0 and some VF are enabled |
| `VfHostLists.SinglePortVfsLive` | firmware/apps/nic/app_control_lib.c:389-571 | with one port every accepted run keeps them live |
| `VfHostLists.StepPfSilent` | firmware/apps/nic/app_control_lib.c:389-571 | a step, accepted or refused, keeps a disabled PF 0's wire list silent if and only if it is not a VF message that reaches the rebuild, a PF 0 enable whose VEB write fails, or a PF 0 disable that cannot stop the MAC |
| `VfHostLists.AcceptedPfSilent` | firmware/apps/nic/app_control_lib.c:562-567 | for accepted steps: if and only if it is not a VF message sent while PF 0 is disabled |
| `VfHostLists.RefusedEnableBreaks` | firmware/apps/nic/app_control_lib.c:503-528 | an instance: PF 0 is enabled after boot, then a VF enable that the VEB refuses has stored its control word and breaks the agreement |
| `VfHostLists.RefusedAtBoot` | firmware/apps/nic/app_control_lib.c:519-522 | at boot a VF enable refused because PF 0 is down breaks nothing |
| `PortLists.PfControl` | firmware/apps/nic/app_control_lib.c:398-443 | a PF message stores its whole control word, and no other, unless a mask refuses it or its enable fails |
| `PortLists.VfControl` | firmware/apps/nic/app_control_lib.c:484-513 | a VF message stores its word unless a mask refuses it, even when it fails later |
| `PortLists.AcceptedControl` | firmware/apps/nic/app_control_lib.c:358-571 | every accepted message stores its word whole and leaves all others |
| `PortLists.PortUntouched` | firmware/apps/nic/app_control_lib.c:358-571 | no step changes a port's wire list or its PF's host list but a message to that port, and a VF message for port 0 |
| `PortLists.EnableServes` | firmware/apps/nic/app_control_lib.c:418-432 | after an accepted enable of any port its two lists, read back, are those of its settings, with the VEB if and only if a VF is enabled |
| `PortLists.EnableDelivers` | firmware/apps/nic/app_control_lib.c:418-432 | so its wire list first transmits to the PF's queue and its host list has a TX_WIRE, for every port |
| `PortLists.DisableDrops` | firmware/apps/nic/app_control_lib.c:455-475 | after an accepted disable of an enabled port both its lists drop |
| `PortLists.StillDisabled` | firmware/apps/nic/app_control_lib.c:455-475 | a disable of a disabled port changes no list |
| `PortLists.VfServes` | firmware/apps/nic/app_control_lib.c:553-567 | an accepted VF message rebuilds port 0's two lists for PF 0's own control word |
| `PortLists.VfOwnList` | firmware/apps/nic/app_control_lib.c:515-551 | the VF's own list is then that of its and PF 0's settings, or drops; no other VF's changes |
| `PortLists.EnableRebuildsVfs` | firmware/apps/nic/app_control_lib.c:418-430 | an accepted enable of a port gives each enabled VF a list for its settings and the port's, and leaves the others |
| `PortLists.CtrlStep` | firmware/apps/nic/app_control_lib.c:358-387 | an accepted control message sets its link bit and word and leaves every other vNIC |
| `PortLists.CtrlServes` | firmware/apps/nic/app_control_lib.c:358-387 | and its list is the control list |
| `PortLists.PortsServed` | firmware/apps/nic/app_control_lib.c:358-571 | over every accepted run from boot each enabled port is served with its own control word, and each other port but port 0 drops |
| `PortLists.PendingIsOwed` | firmware/apps/nic/app_control_lib.c:328-329 | over every run, refused messages included, a VF's interrupt is pending if and only if it is owed: by an accepted message whose BAR is enabled or a change of the port it follows, until a check or a retry sends it or a retry finds it disabled |
| `MessageResults.AcceptedExactly` | firmware/apps/nic/app_control_lib.c:358-571 | a message of any kind is accepted if and only if it passes the masks and nothing it needs fails, all told by its fields, the control words and the failures outside |
| `MessageResults.DisableDropsVfs` | firmware/apps/nic/app_control_lib.c:468-475 | an accepted disable of an enabled port leaves every VF dropping |
| `MessageResults.LinksAfterMessage` | firmware/apps/nic/app_control_lib.c:484-571 | an accepted VF message sets that VF's link, enable and BAR bits and its port, by its fields; refused ones and those to PFs set none |
| `MessageResults.PfShowsLastCheck` | firmware/apps/nic/app_master_main.c:438-536 | over every run a PF's link bit, enable bit and BAR are what the last check of its port saw |
| `AppMaster.App.VfsUp` | firmware/apps/nic/app_control_lib.c:418-430 | the loop brings up the enabled VFs in order and stops at the first failure |
| `AppMaster.App.VfsDown` | firmware/apps/nic/app_control_lib.c:470-475 | the loop gives each VF its drop list and stops at the first failure |
| `AppMaster.App.PfUp` | firmware/apps/nic/app_config_tables.c:1352-1390 | both lists of the port are rebuilt, also when the VEB then fails |
| `AppMaster.App.ProcessPfReconfig` | firmware/apps/nic/app_control_lib.c:389-482 | the whole new state and return value for every message |
| `AppMaster.App.ProcessVfReconfig` | firmware/apps/nic/app_control_lib.c:484-571 | likewise |
| `AppMaster.App.ProcessCtrlReconfig` | firmware/apps/nic/app_control_lib.c:358-387 | likewise |
| `AppMaster.App.DoStep` | firmware/apps/nic/app_master_main.c:254-299 | each pass of the two threads is a step of the runs above, so what holds over them holds of the code |
| `AppMaster.App.Serve` | firmware/apps/nic/app_master_main.c:254-299 | any schedule of passes leaves the state that the runs of Reconfig and VfHostLists compute |
| `DumpSpec.NameWordsLength` | scripts/generate_dump.py:201-207 | a name's words take its length rounded up past at least one zero byte |
| `DumpSpec.NameRoundTrip` | scripts/generate_dump.py:215-233 | a printable name comes back from its words |
| `DumpSpec.EntryRoundTrip` | scripts/generate_dump.py:191-329 | an entry comes back from its type, length and payload |
| `DumpSpec.LevelsRoundTrip` | scripts/generate_dump.py:151-180 | walking an image by its lengths recovers the levels and entries in order |
| `DumpLines.TypesAreNumbered` | scripts/generate_dump.py:97-106 | each type name stands for its number and no other name for any |
| `DumpLines.ListingReads` | scripts/generate_dump.py:128-345 | a listing of levels with their entries under type names is accepted if and only if each fits, and then reads as exactly those levels and entries in order |
| `DumpLines.RefusedExactly` | scripts/generate_dump.py:128-345 | after accepted lines, which error a line draws, if any: an if and only if for each error, told by the lines before it |
| `DumpGenerator.Generator.EmitName` | scripts/generate_dump.py:215-233 | the character loop emits exactly the name's words |
| `DumpGenerator.Generator.EmitRegister` | scripts/generate_dump.py:279-329 | the length inserted afterwards lands between type and payload |
| `DumpGenerator.Generator.EndLevel` | scripts/generate_dump.py:164-180 | the header inserted afterwards fills the gap left for it, with the level's length in bytes |
| `DumpGenerator.Generate` | scripts/generate_dump.py:128-345 | the first bad line's error, or the directives of all chunks listed and the allocation size |
| `DumpGenerator.TilesWhenEnded` | scripts/generate_dump.py:151-180 | offsets tile the image inside the allocation if and only if the last level was ended |
| `DumpGenerator.WalkRecovers` | scripts/generate_dump.py:128-345 | for every well-formed specification they tile it and walking the words recovers the levels and entries |

## Left out

- The worker microcode that executes the lists, and BPF loading with its epoch loop: their guarantees rest on code and registers that are not part of this model.
- Statistics, packet receive and transmit, TRNG, sleeps, queue draining and MSI-X delivery: hardware or library calls; where a step needs a result it is a parameter.
- RSS, MTU, VXLAN and BPF argument values are opaque words in the lists; the RSS and VXLAN tables behind them are not modelled.
- `cfg_act_write_queue` and the copying of a list to every queue and island: a stored list is its `count` words, so stale words after it are not seen.
- Link rates in the BAR status words, MAC enables and TX flushes during a link check.
- The SR-IOV mailbox and the VF MAC it copies: the environment of a message may hold any MAC.
- MacMatchSync: ports with a zero MAC while enabled, and more than eight ports, are outside the theorem.
- Two ports or vNICs calling the table-set write at the same time: one writer is modelled, as the source has.
- VebProgramming.VebIsExact: the VEB clean-up of a PF going down reads a VLAN that was never set, and VLAN 0 undoes its own add; both are outside the runs, as are shared or multicast MACs.
- VebProgramming.Veb.ClearVeb: after a down the stored VLAN field, which nothing reads, is taken as 0.
- AppMaster.App.VfUp: whether the MAC is refused or a VEB message fails is one parameter here; VebProgramming.Veb.VfUp says when. VLAN membership is updated in VlanMembers only.
- ChanToPort.InitTable: the ports' channel ranges are platform constants; they are taken to be disjoint on each NBI, to start on a block or lie in one, and to have at most the eight channels that the code's local array holds.
- VlanMembers.VlanTable.AddMember: at most 56 VFs, so that the members never reach the size field, as every platform configuration defaults to.
- MacLookupTable.MacTable.Add: that a held lock is released in the end is taken for granted; what its holder writes meanwhile is a parameter, and all interleavings are in MacLookupLocks.
- Reconfig: each message, link check and retry is one atomic step, so the link-state thread does not run during the 50 ms wait of a PF enable.
- DumpGenerator.Generate: lines arrive stripped and split; comments, `#define` lines and the version directive of the output carry no image words and are omitted.
- Platform constants, traffic-manager configuration, buffer-list sizing, build files and packaging: finite data or tooling.
