# Midnight Club 3 Archipelago client: a Dafny model

This project models the three cores of the Midnight Club 3 Archipelago client and proves what they promise.

* **Payload code.** The assembler and the decoder of `tools/`, and a small-step machine (registers, byte memory, one
  branch delay slot) that executes the linked words. The purchase hooks, the permit gate, the call loggers and the
  forwarding handlers are assembled by the modelled emitters; the theorems are about running that machine code from
  every machine state, with the game's own functions as opaque steps; what they need of such a function is only that
  the one call in question kept to the calling convention. The readers
  and writers of the shared memory (`mc3api/`) are proved against the same memory.
* **Item protocol and reducer.** The received-items tracker and the polling client against a server and a network that
  loses, repeats and reorders; the reducer and the three gate evaluators; the event store with the service steps cut at
  any point.
* **Money by polling.** Purchases inferred from wallet and earnings, money grants, and the client's own ledger, over
  whole runs.

`MipsDisasm`, `DisasmTables`, `MipsAssembler`, `AssemblerRoundTrip` and `BranchComment` are the toolchain; `EeMemory` and `EeMachine`
the machine; `HookPurchase`, `DetectHook`, `DenyGate`, `CallLogger`, `PayloadHandlers` and `CallChain` the code that runs on
it; `RingLayout`, `PurchaseRing`, `PurchaseDelivery`, `PurchaseAccount`, `Permits`, `Vehicles`, `HookManager` and
`PurchaseEndToEnd` the other side of the mailbox; `StaticXref` the cross-reference search. `ApProtocol`, `ItemLedger`,
`Gates`, `Reducer`, `ReducedState`, `ReducerLaws`, `ItemLog`, `Locks` and `EventStore` are the client; `StatsCatalog`, `GameWatcher` and `MoneyConservation` the
polling. Objects that change in place are classes whose methods are proved equal to functions of the old state; the laws
are lemmas about those functions.

## Where the code does less than its documentation says

Each point is a theorem below, with the exact condition where there is one.

* "Replay does not double money" (docs/design.md:1634) holds of the reducer, not of the running client: an index-0 packet
  that meets an inventory with money adds that money again, and a poll over a closed socket that fails on an out-of-sequence
  packet loses the money of the packets before it (`ItemLedger.RunCostsIff`, `ItemLedger.TotalEqualsInventoryIff`).
* The ring reader promises each purchase "exactly once" (purchase_hook.py:51-52). It delivers none twice if and only if
  every drain starts behind the last purchase delivered (`PurchaseAccount.NoRepeatIff`), which successful count reads
  ensure and a failed one can break (`PurchaseAccount.FreshIff`, `PurchaseAccount.OfflineRedelivers`). It loses what was
  overwritten, what a re-zeroing or a client restart finds unread, and what the count of an earlier ring hides
  (`PurchaseAccount.CompleteIff`, `PurchaseAccount.LostIff`, `PurchaseAccount.FirstDrainIff`).
* "Locks only open, never close" (reducer.py:121) needs item names that are unique where a gate wants two or more of them
  (`Locks.NeverClosesIff`); the garage limit and the money total need the same of their items
  (`ReducerLaws.GarageMonotoneIff`, `ReducerLaws.MoneyMonotoneIff`).
* A poll while the catalog pointer is invalid makes the next poll report all career earnings as a purchase
  (`MoneyConservation.UnreadableCatalogInventsPurchase`, `MoneyConservation.PollExactIff`).
* `apply_money_total` calls itself idempotent "without stacking on repeated applies" (mc3api_runtime.py:81-86); after
  spending below the floor a grant pays the spent money back (`MoneyConservation.GrantsBalance`,
  `MoneyConservation.GrantRefundsSpending`).
* The permit table governs only indices below 96; the lookup's answer for an unknown vehicle may read another byte
  (`PurchaseEndToEnd.ApplyReachesIndex`).
* `set_vehicle_permits` calls itself a no-op without the deny hook (mc3api_runtime.py:97-98); it writes the table in any
  case (`Permits.SetVehiclePermits`).
* "Python restart does not lose items/checks" (docs/design.md:1270) holds for append packets and checks that were sent.
  An index-0 packet is not stored and forgets the checked locations (`EventStore.ResetRefinesIff`), and a check cut off
  between recording and sending is never sent again (`EventStore.UnsentNeverSent`), although docs/design.md:1488 asks to
  send all unsent checks.
* Location ids are declared numbers (ids.py:11), but the service turns them into text as they come in
  (client_service.py:79), the store returns text and the generated tables are keyed by text (slot_data.py:61). All of it
  fits together only as text: a table keyed as declared would match no state of the client
  (`EventStore.NumberTableNeverChecked`).

## Model

| member | source | states |
|---|---|---|
| MipsAssembler.Assembler.Lbl | tools/mips_assembler.py:143-146 | a label names the current position, a later definition wins, and no instruction changes |
| MipsAssembler.Assembler.Emit | tools/mips_assembler.py:139-297 | an emitter fails exactly for an immediate outside -32768..65535 and then appends nothing; otherwise exactly one instruction is appended and the pending list stays complete |
| MipsAssembler.Assembler.Resolve | tools/mips_assembler.py:254-308 | patching one pending entry gives that word its label's encoding and touches no other instruction; an unknown label is an error and changes nothing |
| MipsAssembler.Assembler.ResolveAll | tools/mips_assembler.py:330-336 | succeeds exactly when every referenced label is defined, and then every pending word is patched |
| MipsAssembler.Assembler.Pack | tools/mips_assembler.py:338-341 | the words in order, little-endian; fails exactly when a word exceeds 32 bits |
| MipsAssembler.Assembler.Link | tools/mips_assembler.py:330-341 | the bytes depend only on the emitter calls and the labels, so linking again returns the same bytes; fails exactly for an undefined label or a word that does not fit |
| AssemblerRoundTrip.RoundTripR3 | tools/mips_assembler.py:153-173 | a three-register word decodes to its operation and registers |
| AssemblerRoundTrip.RoundTripSll | tools/mips_assembler.py:175-176 | a shift decodes back exactly when its amount is below 32 |
| AssemblerRoundTrip.RoundTripOneRegister | tools/mips_assembler.py:178-191 | jr, jalr, mflo, mfhi and mult decode to their registers |
| AssemblerRoundTrip.RoundTripImm | tools/mips_assembler.py:195-239 | an immediate word decodes to its registers and its immediate modulo 2^16, sign- or zero-extended as the operation does |
| AssemblerRoundTrip.RoundTripBranch | tools/mips_assembler.py:254-287 | a branch decodes to its label, forwards or backwards, exactly within 2^15 instructions of the delay slot |
| AssemblerRoundTrip.RoundTripJump | tools/mips_assembler.py:299-308 | a jump decodes to its label exactly if the label is word-aligned in the delay slot's 256 MB segment |
| AssemblerRoundTrip.RoundTripOp | tools/mips_disasm.py:64-114 | decoding inverts linking, instruction by instruction, exactly when the fields can hold what was asked for |
| AssemblerRoundTrip.LinkedDecodes | tools/mips_assembler.py:330-341 | the same for word k of any linked program |
| AssemblerRoundTrip.LinkedFits | tools/mips_assembler.py:153-155 | linked words fit 32 bits if shift amounts fit five |
| DisasmTables.DecodeIFormat | tools/mips_disasm.py:97-114 | for every opcode with registers and 16 bits, known to the table or not, the decoder shows the operands of the mnemonic that the table names |
| DisasmTables.DecodeRFormat | tools/mips_disasm.py:71-90 | the same for the register format and the table of function codes |
| DisasmTables.DecodeRegImm | tools/mips_disasm.py:91-95 | under opcode 1 the rt field names the branch; its target is the delay slot plus four times the signed 16-bit field |
| DisasmTables.DecodeJFormat | tools/mips_disasm.py:96-98 | a jump goes to its 26-bit field in the segment of the delay slot |
| DisasmTables.EmittersAgree | tools/mips_assembler.py:67-98 | the code of every emitter is the one under which the decoder knows its mnemonic |
| DisasmTables.RegistersAgree | tools/mips_assembler.py:24-57 | assembler and decoder give each register number the same name but for the case |
| BranchComment.CommentRoundTripIff | tools/mips_assembler.py:241-280 | the registers of a branch survive the comment text exactly when no later word of the label overrides them |
| BranchComment.PlainLabelRoundTrips | tools/mips_assembler.py:241-280 | they survive for every label without white space |
| BranchComment.BlankInLabelChangesRegister | tools/mips_assembler.py:266-277 | a label with a blank can change a branch's register |
| EeMachine.WriteLoads | tools/hook_purchase.py:181-184 | writing the linked bytes puts every word where the processor fetches it |
| HookPurchase.BuildDetectTramp | tools/hook_purchase.py:71-105 | the builder's bytes are the link of the detect program at its base |
| HookPurchase.BuildDenyTramp | tools/hook_purchase.py:108-153 | the builder's bytes are the link of the deny program with its forward label |
| RingLayout.StoresAppend | tools/hook_purchase.py:81-99 | the six stores, from any memory and any head, are one append to the ring that keeps the other fifteen records |
| DetectHook.DetectHookAppends | tools/hook_purchase.py:71-105 | from every machine state with an aligned context pointer the linked code takes 25 steps to SpendMoney, keeps every register but t0-t7 and t9, writes only inside the ring, and appends record pointer, wallet minus new total, wallet and count + 1 at slot (head + 1) mod 16 |
| DenyGate.DenyGateOff | tools/hook_purchase.py:113-118 | with enforcement off the code reaches UISet with arguments, ra, sp, saved registers and all memory unchanged |
| DenyGate.DenyGateOn | tools/hook_purchase.py:108-153 | with enforcement on, the lookup is called with the selected record and only the stack frame was written; if that one call keeps to the calling convention, UISet is reached with a0, a1, ra, sp and saved registers as on entry, a2 and memory as they are if the permit byte of the index is non-zero, and otherwise a2 is 0, the pending flag is cleared and the rest of memory is the lookup's own |
| CallLogger.BuildTrampoline | tools/instrument_setcarcfg.py:41-84 | the builder's bytes are the link of the logger program |
| CallLogger.LoggerTransparent | tools/instrument_setcarcfg_first_site.py:42-85 | both loggers log a0-a3 and ra in one of the eight slots whatever the head was and enter their target with the caller's registers; if that one call keeps to the calling convention, the caller is resumed with sp and ra restored and everything else as the target left it |
| PayloadHandlers.BuildPayload | tools/build_payload.py:88-94 | the builder's bytes are the link of both handlers |
| PayloadHandlers.HandlerTransparent | tools/build_payload.py:32-85 | each handler bumps the heartbeat, notes and stamps the event and enters the original with the caller's registers, writing only three mailbox words and its own frame; if that one call keeps to the calling convention, the caller is resumed with sp, ra and the saved registers intact and everything else as the original left it |
| PayloadHandlers.HandlerKeepsConvention | tools/build_payload.py:32-85 | a handler, which counts in the mailbox and keeps a stack frame, is itself a function that keeps to the calling convention, so it may be the target of another trampoline |
| CallChain.ChainTransparent | tools/instrument_setcarcfg_first_site.py:42-85 | one run through the logger, the handler at the address it chains to and the original: the call is logged and noted, the original gets the caller's arguments and saved registers, and if that one call keeps to the calling convention the first caller is resumed after 60 steps with everything but sp and ra as the original left it |
| PayloadHandlers.FirstSiteGuardIff | tools/instrument_setcarcfg_first_site.py:96-107 | of all jumps the installer replaces only the one to the address its trampoline forwards to |
| PayloadHandlers.FirstSiteRefusesThisPayload | tools/instrument_setcarcfg_first_site.py:96-107 | over the call-site patch of this payload, whose SetCarCfg handler stands elsewhere, the installer aborts |
| PurchaseRing.S32Recovers | mc3api/purchase_hook.py:101-102 | the signed reading of a 32-bit difference is the difference exactly when that fits 32 signed bits |
| PurchaseRing.PurchaseRing.Drain | mc3api/purchase_hook.py:71-89 | the new records, oldest first and at most 16, each with its name, signed amount, wallet and ordinal; a count at or below the one seen resets the reader and yields nothing |
| PurchaseRing.ResolveNameIs | mc3api/purchase_hook.py:91-98 | the name is the one text at 0xDF behind the record pointer, up to the first zero or 32 bytes, or empty if the pointer is not plausible |
| PurchaseDelivery.AppendedHolds | tools/hook_purchase.py:81-99 | an append keeps the ring equal to the last sixteen purchases of the log |
| PurchaseDelivery.DrainReads | mc3api/purchase_hook.py:71-89 | a drain returns exactly the unseen part of the log that is still in the ring |
| PurchaseDelivery.RunDelivers | mc3api/purchase_hook.py:48-89 | from any ring the first reader attaches to, over every run of purchases, drains, game steps, failed reads, restarted readers and re-zeroings, ring, reader and output follow the abstract history, and report i shows the name, amount, wallet and ordinal of record i of that output as memory stood at a step of the run |
| PurchaseAccount.EveryPurchaseSettled | mc3api/purchase_hook.py:48-89 | over every run, failed reads included: what is delivered are purchases of the run, ordinals grow within each epoch, and every settled purchase was delivered or is in exactly one of four lost sets: overwritten, unread at a re-zeroing, skipped by a new reader, hidden behind the count of an earlier ring |
| PurchaseAccount.NoRepeatIff | mc3api/purchase_hook.py:71-89 | over every run, failed reads included: no purchase is delivered twice, and then deliveries keep the order of the purchases, if and only if every drain starts behind the last purchase delivered before |
| PurchaseAccount.FreshIff | mc3api/purchase_hook.py:59-76 | for one reader on one ring a drain does so exactly if the reader's count is that of the purchases already drained, or sixteen have been made since |
| PurchaseAccount.LostIff | mc3api/purchase_hook.py:71-89 | over every run, failed reads included: a settled purchase is lost exactly if no drain found it in its window |
| PurchaseAccount.ExactlyOnce | mc3api/purchase_hook.py:71-89 | over every run whose count reads succeed, however often the ring is re-zeroed or a client restarted: no purchase is delivered twice, in order, and every settled one was delivered or is in exactly one lost set |
| PurchaseAccount.CompleteIff | mc3api/purchase_hook.py:71-89 | while reads succeed, everything settled since the first reader attached was delivered exactly when each drain found at most sixteen unread purchases and a count of this ring (or an empty ring), and each re-zeroing and restart found all read |
| PurchaseAccount.FirstDrainIff | mc3api/purchase_hook.py:73-76 | the first drain of a ring with purchases in it brings the reader in step with it; it delivers nothing and hides all of them exactly if the count has not passed what was seen before |
| PurchaseAccount.CompleteIffTimely | mc3api/purchase_hook.py:71-89 | for one reader on one ring, everything was delivered exactly when every drain found at most sixteen unread purchases |
| PurchaseAccount.DeliveryExactlyOnce | mc3api/purchase_hook.py:48-89 | all of it for runs of memory, trampoline and readers, from any ring: every purchase settled, none repeated exactly under the condition above, and complete exactly under its own while reads succeed; what the readers return shows exactly the delivered records, one for one and in order |
| PurchaseAccount.RezeroLosesPurchases | tools/hook_purchase.py:163-166 | with five seen before, three purchases after a re-zeroing never arrive |
| PurchaseAccount.OfflineRedelivers | mc3api/purchase_hook.py:59-63 | a failing input: after a drain of a reader on one ring, a failed read and at once another drain deliver the last sixteen purchases again, unless there were none |
| PurchaseDelivery.WrapLosesPurchase | mc3api/purchase_hook.py:71-76 | at 2^32 - 1 purchases seen the next one is not delivered |
| Vehicles.ParseVehicleArray | mc3api/vehicles.py:38-56 | the longest run of good entries from the start, at most 128, each at its own index with its own address, pointer and name |
| Vehicles.CatalogUnique | mc3api/vehicles.py:38-56 | the bytes determine the catalog |
| Vehicles.CatalogRoundTrip | mc3api/vehicles.py:38-56 | 28-byte entries that start with plausible little-endian pointers to printable names, up to 128 or followed by a pointer that is not plausible, parse back to exactly those vehicles |
| Vehicles.ReadVehicles | mc3api/vehicles.py:59-66 | the catalog that stands in memory: 28-byte entries behind the list pointer, as many as the 16-bit count allows, each with the word it starts with and the text that word points to, up to the first without a printable name; none when the list pointer is invalid |
| Vehicles.CatalogMeans | mc3api/vehicles.py:34-66 | a list of vehicles is what is read exactly if it is that catalog, spelled out on the words and bytes of memory |
| Permits.PermitTable.Apply | mc3api/purchase_hook.py:121-125 | byte i is 1 exactly for the allowed i below 96, the flag is set, and no other byte changes, whatever was there |
| Permits.PermitTable.AllowAll | mc3api/purchase_hook.py:127-129 | every byte is 1, the flag is 0, and no other byte changes |
| Permits.PermitTable.DeniedIndices | mc3api/purchase_hook.py:134-136 | exactly the indices whose byte is 0, in increasing order |
| Permits.DistinctNames | client/mc3ap/adapters/pcsx2/mc3api_runtime.py:93-107 | with distinct names a vehicle is allowed exactly when its own name is |
| Permits.NameToIndex | client/mc3ap/adapters/pcsx2/mc3api_runtime.py:100-102 | every name of the catalog maps to its last vehicle |
| Permits.SetVehiclePermits | client/mc3ap/adapters/pcsx2/mc3api_runtime.py:93-107 | the table in memory holds exactly the named vehicles of the catalog that stands in memory, and only the table and the flag change |
| PurchaseEndToEnd.PermitsEnforced | tools/hook_purchase.py:108-153 | with a written table and enforcement on, the machine code lets a purchase through exactly if the index the lookup returned, one below 96, is allowed; memory is then the lookup's own, and after a cancel too but for the pending flag |
| PurchaseEndToEnd.PermitsEnforcedByName | client/mc3ap/adapters/pcsx2/mc3api_runtime.py:93-107 | for every catalog of distinct names, when the lookup answers the index of the name in the selected record, the purchase of one of the first 96 vehicles goes through exactly if its name was given to `set_vehicle_permits` |
| PurchaseEndToEnd.PermitsEnforcedInMemory | client/mc3ap/adapters/pcsx2/mc3api_runtime.py:93-107 | the same from memory to memory: the record whose name bytes read as those of catalog entry i goes through exactly if that name was given to `set_vehicle_permits` |
| PurchaseEndToEnd.EnforcementOff | tools/hook_purchase.py:113-118 | with enforcement off every purchase goes through with all memory unchanged, whatever the table holds |
| PurchaseEndToEnd.ApplyReachesIndex | tools/hook_purchase.py:127-133 | the byte looked up is one that the table or flag write reaches exactly for indices below 96 and for 2^32 - 4 |
| PurchaseEndToEnd.UnlistedIndexIgnoresPermits | tools/hook_purchase.py:127-133 | for every other index the decision is the same before and after a permit write |
| PurchaseEndToEnd.InstallLoadsDetect | tools/hook_purchase.py:171-189 | after the install write the detect program is loaded |
| PurchaseEndToEnd.InstallLoadsDeny | tools/hook_purchase.py:192-213 | after the install write the deny program is loaded |
| PurchaseEndToEnd.TrampolineIsPurchase | tools/hook_purchase.py:71-105 | one execution of the trampoline is one purchase step of the delivery runs |
| PurchaseEndToEnd.OnePurchaseDrained | mc3api/purchase_hook.py:71-98 | after one execution of the trampoline a reader in step drains exactly one purchase: its amount is the wallet word minus a1 exactly when that fits 32 signed bits, its wallet the wallet word, its ordinal the old count plus one, its name the text at 0xDF behind the record pointer |
| HookManager.JalRoundTrip | mc3api/hooks.py:17-26 | decoding an encoded JAL gives the target back exactly for word-aligned targets below 2^28 |
| HookManager.InstallGuardIs | mc3api/hooks.py:50-58 | a site is patched exactly if it holds a JAL, the expected one where one is given; refused as already hooked exactly if it surprises and jumps to this very handler |
| HookManager.HookManager.InstallHook | mc3api/hooks.py:42-63 | a wrong or missing JAL is refused with nothing changed; otherwise the word is patched and the handle holds the word that was there |
| HookManager.HookManager.RestoreHook | mc3api/hooks.py:65-67 | the handle's word is written back and its address is no longer active |
| HookManager.HookManager.RestoreAll | mc3api/hooks.py:69-71 | every active handle is restored, in order |
| HookManager.RestoreAllUndoesRun | mc3api/hooks.py:42-71 | after any sequence of installs and restores in which no install that the guard lets through hits a hooked word (refused ones may), restoring all gives every byte of memory back |
| HookManager.SecondInstallLosesOriginal | mc3api/hooks.py:61-63 | a second install at an address drops the first handle; restoring all gives memory back exactly if the site already jumped to the first handler |
| HookManager.NestedUnwind | mc3api/hooks.py:65-67 | two nested hooks unwound by their handles, last in first out, give memory back |
| StaticXref.FindCallers | tools/static_xref.py:55-64 | exactly the sites of the text segment that hold the JAL word, in increasing order |
| StaticXref.CallersAre | tools/static_xref.py:55-64 | an address is reported exactly if it is a word of the image below 0x00715BC0 that holds 0x0C000000 plus the 26-bit target field |
| StaticXref.CallerDecodesIff | tools/static_xref.py:57-63 | that word is there exactly when the decoder reads a JAL to the target |
| StaticXref.FindDatarefs | tools/static_xref.py:67-102 | for every window: the sites whose low half matches and that have a matching lui in the window among the last 64 lui instructions before them |
| StaticXref.DatarefsAre | tools/static_xref.py:67-102 | an address is reported exactly if it is a kept reference of the image below 0x00715BC0 |
| StaticXref.UsesLowIff | tools/static_xref.py:81-95 | the uses of a low half are addiu, ori and the six loads and stores, by the mnemonics of the decoder's table, with that half as immediate |
| StaticXref.SitesExact | tools/static_xref.py:67-102 | the reported sites are strictly increasing and are exactly the matching ones |
| StaticXref.KeepsEveryRefIff | tools/static_xref.py:87-90 | keeping only 64 lui sites finds every reference of the simple definition, for all images and addresses, exactly for windows of at most 64 |
| StaticXref.PairFormsIff | tools/static_xref.py:69-101 | executing the lui and then the use forms the address, sign- or zero-extended as the instruction does, exactly when the pair matches |
| ApProtocol.ReceivedItemsTracker.Apply | client/mc3ap/adapters/archipelago/ap_protocol.py:78-96 | index 0 replaces the inventory by the items as sent, numbered from 0; the expected index appends them, numbered from there; any other index changes nothing and asks for a resync |
| ApProtocol.ReceivedItemsTracker.Append | client/mc3ap/adapters/archipelago/ap_protocol.py:98-111 | the items, as sent, are numbered from the next index, appended, and returned; a missing location reads -1, a missing player or flags 0 |
| ApProtocol.ArchipelagoClient.SendLocationChecks | client/mc3ap/adapters/archipelago/ap_client_adapter.py:74-78 | checks count as sent only if the send succeeded; an empty list sends nothing |
| ApProtocol.ArchipelagoClient.ResendAllChecks | client/mc3ap/adapters/archipelago/ap_client_adapter.py:80-82 | everything ever sent goes out in one packet, and nothing if nothing was |
| ApProtocol.ArchipelagoClient.Poll | client/mc3ap/adapters/archipelago/ap_client_adapter.py:92-116 | one batch, packet by packet: tracker, checked list, packets sent and items returned; a resync that cannot be sent abandons the rest of the batch and the items |
| ApProtocol.ProtocolSafety | client/mc3ap/adapters/archipelago/ap_protocol.py:69-111 | over every run with lost, repeated and reordered packets the inventory is a prefix of the server's list, item i with id, location, player and flags as sent and index i, the next index is its length, and the server knows only checks that were sent |
| ApProtocol.StepKeepsInv | client/mc3ap/adapters/archipelago/ap_client_adapter.py:74-116 | every single step keeps that, and the server's list, its known checks and the sent checks only grow |
| ApProtocol.FullPacketSynchronises | client/mc3ap/adapters/archipelago/ap_protocol.py:84-88 | one full index-0 packet makes the client's items the server's, each as sent and numbered from 0, from any state |
| ApProtocol.GapResendsEverything | client/mc3ap/adapters/archipelago/ap_client_adapter.py:103-107 | a gap keeps the inventory and puts all checks ever sent on the wire, after which one delivery makes the server know them all |
| ItemLedger.ItemApplier.Apply | client/mc3ap/runner.py:51-62 | a money item raises the total by its value and the wallet floor to the total; any other item only becomes pending |
| ItemLedger.NameOfIs | client/mc3ap/runner.py:51-54 | a known id has its name, any other reads "item#" and digits that stand for the id |
| ItemLedger.ItemApplier.ReceiveAndApply | client/mc3ap/runner.py:99-109 | the total grows by the value of what the poll returned, and by nothing if it failed, although the tracker moved on |
| ItemLedger.LedgerBalances | client/mc3ap/runner.py:51-62 | over every run: total plus money lost in failed polls equals the inventory's money plus the money of replaced inventories |
| ItemLedger.TotalEqualsInventoryIff | client/mc3ap/runner.py:51-62 | the total equals the inventory's money exactly if replaced inventories and failed polls cost the same, and is never below it without failed polls |
| ItemLedger.PollFailsIff | client/mc3ap/adapters/archipelago/ap_client_adapter.py:92-116 | a poll fails exactly if the socket is closed and some packet's index is neither 0 nor the one expected there |
| ItemLedger.RunCostsIff | client/mc3ap/runner.py:99-109 | over every run, money is lost exactly if some closed-socket poll has an item with value in a packet before the first out-of-sequence one, and inventory money is dropped exactly if some index-0 packet meets an inventory with value |
| ItemLedger.OpenLosesNothing | client/mc3ap/adapters/archipelago/ap_client_adapter.py:92-116 | with an open socket no poll loses money |
| ItemLedger.ReplayDoublesMoney | client/mc3ap/adapters/archipelago/ap_protocol.py:84-88 | two full packets with one money item leave one item and twice its money |
| ItemLedger.FailedPollLosesMoney | client/mc3ap/runner.py:99-106 | the shortest such input: an item before an unsendable resync is in the inventory and its money is never granted |
| StatsCatalog.ParseCatalog | mc3api/stats.py:76-92 | the parsed entries, stopping at the terminator, a non-printable tag, the end or 512 entries |
| StatsCatalog.ParseStopsIff | mc3api/stats.py:82-90 | parsing stops exactly at the cap, at less than 16 bytes and at a tag byte outside 0x20 to 0x7E, which the terminator is too |
| StatsCatalog.RoundTrip | mc3api/stats.py:76-92 | serialised entries with a terminator and any tail parse back, up to the cap |
| StatsCatalog.InsertShiftsNoLookup | mc3api/stats.py:119-146 | inserting an entry at any position changes no lookup of another key or tag |
| StatsCatalog.InsertShiftsNoRawLookup | mc3api/stats.py:76-123 | the same from raw memory, as long as the grown catalog stays within the cap |
| StatsCatalog.GetAgreesWithDict | mc3api/stats.py:119-146 | with unique keys the scan (first entry) and the dictionary (last entry) agree on every key |
| StatsCatalog.FirstIs | mc3api/stats.py:125-131 | the first entry of the tag, and none exactly if there is no such entry |
| GameWatcher.GameWatcher.NoteInjectedMoney | mc3api/events.py:120-121 | injected money accumulates until the next poll |
| GameWatcher.GameWatcher.PollMoney | mc3api/events.py:131-145 | money events and purchase count of one poll as a function of the old fields; injected money is consumed |
| GameWatcher.GameWatcher.PollStats | mc3api/events.py:147-171 | one event per changed key, in the catalog's order, and none on the first poll |
| GameWatcher.GameWatcher.PollOnce | mc3api/events.py:123-185 | the whole poll: money events, then changed statistics, then one event per drained purchase with what was drained, and the new baseline |
| GameWatcher.KeysInOrder | mc3api/events.py:152-153 | the keys, and so the events of a poll, come in the order of their first entries in the catalog |
| GameWatcher.CityCountIs | mc3api/events.py:203-205 | the count over all cities is the sum of the values of the entries with the city tag, each key once |
| GameWatcher.StatReportedIff | mc3api/events.py:147-171 | an ordinary statistic is reported exactly when it moved, with its old and new value |
| GameWatcher.RouteReportedIff | mc3api/events.py:154-171 | a route is reported exactly when its best time moved or appeared, with the time of its first entry (the moved one, with unique keys), and as won exactly if the career wins went up in that poll |
| GameWatcher.CollectibleReportedIff | mc3api/events.py:158-205 | a collectible is reported exactly when a collectibles total moved or appeared, with that total, the sum of the values of all keys with the city tag, and the first of the eight cities whose own count moved, or -1 |
| GameWatcher.Mc3ApiRuntime.ApplyMoneyTotal | client/mc3ap/adapters/pcsx2/mc3api_runtime.py:81-91 | the floor never falls, the wallet is raised to it, and the watcher is told exactly what was added |
| MoneyConservation.BooksBalance | mc3api/events.py:131-145 | over every run: the wallet moved since the last poll by what was earned, spent and granted |
| MoneyConservation.PollExactIff | mc3api/events.py:134-145 | a poll reports exactly the spending since the last one if and only if the catalog can be read now and could be at the last poll (or nothing had been earned by then), or it cannot be read and nothing was spent, or nothing was earned that it hides |
| MoneyConservation.EveryPollExactIff | mc3api/events.py:131-145 | every poll of a run is exact if and only if every poll meets that condition |
| MoneyConservation.PurchasesConserveMoney | mc3api/events.py:131-145 | with a readable catalog at every poll, the reported purchases add up to all money spent up to the last poll, so a grant is never taken for a purchase and hides none |
| MoneyConservation.DeltasTelescope | mc3api/events.py:131-145 | the reported money changes add up to the net wallet change, and purchases are numbered 1 to n with positive amounts, whatever the catalog does |
| MoneyConservation.UnreadableCatalogInventsPurchase | mc3api/events.py:134-145 | a poll while the catalog is unreadable, then one after, reports all earnings as a purchase |
| MoneyConservation.GrantIdempotent | client/mc3ap/adapters/pcsx2/mc3api_runtime.py:81-91 | granting the same total again at once changes nothing, and the wallet covers everything granted |
| MoneyConservation.GrantsBalance | client/mc3ap/adapters/pcsx2/mc3api_runtime.py:81-91 | over every run the money put in is the growth of the floor plus spent money given back less growth the wallet covered; the first is zero exactly if no grant finds the wallet below the floor, the second exactly if no raising grant finds it above |
| MoneyConservation.GrantsPayOnce | client/mc3ap/adapters/pcsx2/mc3api_runtime.py:81-91 | if no grant comes after spending below the floor, grants pay at most what was granted, and exactly that if and only if no raising grant finds a richer wallet |
| MoneyConservation.GrantRefundsSpending | client/mc3ap/adapters/pcsx2/mc3api_runtime.py:81-91 | with 1000 granted and 900 of it spent, granting 1500 puts in 1400 |
| Gates.EvaluateGate | client/mc3ap/domain/gates.py:18-72 | lists what is missing, in order, and allows exactly when items, one alternative group, counts and locations are all there |
| Gates.NothingMissing | client/mc3ap/domain/gates.py:35-72 | the list is empty exactly when the gate passes |
| Gates.GatePassed | client/mc3ap/domain/reducer.py:138-160 | the early-exit evaluator passes exactly when all four conditions hold, locations found by their first id of that name |
| Gates.EvaluatorsAgreeIff | client/mc3ap/domain/reducer.py:154-159 | the two evaluators agree for every gate, inventory and set of checked locations exactly when location names are unique |
| Gates.GateMonotone | worlds/mc3/rules.py:29-41 | owning, counting and checking more keeps a gate open, and an open gate satisfies the generator's rule |
| Gates.AccessRule | worlds/mc3/rules.py:29-41 | the early-exit rule holds exactly if all required items are owned and, where there are alternatives, all items of one group |
| Gates.RuleGapIs | worlds/mc3/rules.py:29-41 | a gate passes exactly if the generator's rule holds, every count is reached and every required location that is known is checked: this is all the rule leaves out |
| Reducer.Tally | client/mc3ap/domain/reducer.py:126-135 | the owned names, and for each name the count of the last entry with it |
| Reducer.TotalMoney | client/mc3ap/domain/reducer.py:191-203 | the packs' values times their counts, in whatever order the counts are visited |
| Reducer.ReduceDesiredState | client/mc3ap/domain/reducer.py:114-295 | the loops compute the desired state as a function of seed and client state alone |
| ReducedState.UnlockedIff | client/mc3ap/domain/reducer.py:220-256 | an unlock of any of the eight kinds is in the desired state exactly if some passing gate's lower-case description has that kind's prefix, none earlier in the chain, and the text after its last occurrence, stripped and in the kind's spelling, is the unlock's name |
| ReducedState.GrantedIff | client/mc3ap/domain/reducer.py:258-267 | a vehicle is granted under an index exactly if that index belongs to an item whose name reads, after its last "Vehicle Grant:", as that vehicle in lower case with underscores |
| ReducedState.LogosAre | client/mc3ap/domain/reducer.py:178-182 | the logos counted are exactly the checked locations of the table whose lower-case name contains "logo_collected" |
| ReducedState.TierIff | client/mc3ap/domain/reducer.py:183-189 | a tier is reached exactly if it is one of the three, 12, 24 or 36 logos are checked, and its item is owned or rewards are not randomised |
| ReducedState.MoneyAndGarageAre | client/mc3ap/domain/reducer.py:191-207 | the money is 500, 1000, 5000, 10000 and 50000 times the counts of the packs of those names, and the garage 30 plus the slot items, at most 60 |
| ReducedState.GoalIff | client/mc3ap/domain/reducer.py:209-218 | the goal is reached exactly if its item is owned, or, where that is not so and locations are named, every named one that is known is checked |
| ReducerLaws.ReduceMonotone | client/mc3ap/domain/reducer.py:114-289 | with unique names among the counted items, more instances and checks never shrink an unlock, grant, tier, the money, the garage limit (always 30 to 60) or the goal |
| ReducerLaws.MoneyMonotoneIff | client/mc3ap/domain/reducer.py:129-135 | the money total is monotone for all inventories exactly when no two items share a money pack's name |
| ReducerLaws.GarageMonotoneIff | client/mc3ap/domain/reducer.py:205-209 | the garage limit is monotone for all inventories exactly when no two items share the slot item's name |
| Locks.NeverClosesIff | client/mc3ap/domain/reducer.py:138-160 | for every seed and gate, receiving and checking more never closes the gate if and only if it cannot open at all or no two items share a name of which it wants two or more |
| Locks.SharedCloses | client/mc3ap/domain/reducer.py:129-135 | two items of one name that a gate counts to two or more close it: some log opens it and one more item closes it |
| ItemLog.ApplyFullInventoryReset | client/mc3ap/domain/reducer.py:346-355 | the log grouped by item, with no checked locations |
| ItemLog.IncrementalIsBatch | client/mc3ap/domain/reducer.py:310-355 | receiving a log with distinct indexes one by one, in any order, gives the same state as one reset with it, even in the order of its dictionaries |
| ItemLog.ReceiveKeepsInverseIff | client/mc3ap/domain/reducer.py:310-329 | receiving an item keeps the two dictionaries exact inverses if and only if its index is new or comes with the same item |
| ItemLog.ReplayIsIdempotent | client/mc3ap/domain/reducer.py:310-329 | receiving a known item again changes nothing |
| ItemLog.LogIsInverse | client/mc3ap/domain/reducer.py:346-355 | after a log with distinct indexes the two dictionaries are exact inverses |
| ItemLog.MoneyIsSum | client/mc3ap/domain/reducer.py:191-203 | with unique pack names the reduced money is the sum over received indexes |
| ItemLog.OneGrantPerIndex | client/mc3ap/domain/reducer.py:258-267 | each granting index gives exactly one vehicle grant, and nothing else does |
| ItemLog.ArrivalOrderIrrelevant | client/mc3ap/domain/reducer.py:310-329 | two logs with the same entries in any orders give the same desired state |
| EventStore.UpsertFind | client/mc3ap/adapters/storage/sqlite_event_store.py:104-110 | storing an item changes the row of that index, to that item, and no other row |
| EventStore.UpsertSorted | client/mc3ap/adapters/storage/sqlite_event_store.py:66-70 | the rows stay in index order, the order in which they are loaded |
| EventStore.SqliteEventStore.RecordLocationCheck | client/mc3ap/adapters/storage/sqlite_event_store.py:112-118 | a known check keeps its sent flag, a new one is added under the text of its id |
| EventStore.SqliteEventStore.MarkChecksSent | client/mc3ap/adapters/storage/sqlite_event_store.py:147-152 | exactly the named rows that exist become sent; no row is added |
| EventStore.SqliteEventStore.GetUnsentChecks | client/mc3ap/adapters/storage/sqlite_event_store.py:141-145 | exactly the checks whose flag is not set |
| EventStore.SqliteEventStore.LoadClientState | client/mc3ap/adapters/storage/sqlite_event_store.py:66-98 | the state of the stored log in index order, with every recorded check |
| EventStore.ApEventService.HandleReceivedItems | client/mc3ap/application/ap_event_service.py:15-46 | an index-0 packet replaces the state and stores nothing; any other index stores and applies the items one by one |
| EventStore.ResetLogFind | client/mc3ap/application/ap_event_service.py:28-32 | each item of an index-0 packet goes to its own index or to the next free number and replaces what was there |
| EventStore.PlainReset | client/mc3ap/application/ap_event_service.py:28-32 | without own indexes the items are numbered from 0, in order |
| EventStore.ClientService.OnLocationChecked | client/mc3ap/application/client_service.py:90-102 | a known check does nothing; a new one is remembered, recorded unsent, sent and marked, and a failed send stops after the record |
| EventStore.KeyIs | client/mc3ap/application/client_service.py:85 | a text id is its own key, the key of a number reads back as that number |
| EventStore.UsableIff | client/mc3ap/application/client_service.py:82-85 | an event for an unknown check does nothing exactly if its id is 0 or empty |
| EventStore.RunKeeps | client/mc3ap/adapters/storage/sqlite_event_store.py:66-152 | over every run of append packets and checks, cut and restarted after any effect: a stored item is the server's, a row marked sent was sent, a restart comes back to the same memory but for log order, and no row, flag or sent check is taken back |
| EventStore.Outbox | client/mc3ap/application/client_service.py:90-102 | at every point of such a run, also mid-event, a recorded check was sent or is listed unsent, everything recorded is loaded by a restart, and a finished event has recorded what it was given |
| EventStore.RestartRestoresGame | client/mc3ap/adapters/storage/sqlite_event_store.py:66-98 | with unique counted names the desired game state after a restart is the one before it |
| EventStore.ResetRefinesIff | client/mc3ap/application/ap_event_service.py:26-36 | after an index-0 packet a restart comes back to the same state exactly if the store already held that inventory and no check |
| EventStore.AppendRefinesIff | client/mc3ap/application/ap_event_service.py:38-44 | an appended item keeps store and memory in agreement exactly when its index is new or comes with the same item |
| EventStore.UnsentNeverSent | client/mc3ap/application/client_service.py:90-93 | a check recorded but unsent at a start is never sent in any later run of append packets and checks |
| EventStore.CutBeforeSend | client/mc3ap/application/client_service.py:95-100 | a cut between recording and sending leaves such a check |
| EventStore.RecordedIdLoadsIff | client/mc3ap/adapters/storage/sqlite_event_store.py:75-76 | a recorded location id is among the loaded ones exactly if it was text |
| EventStore.NumberTableNeverChecked | client/mc3ap/adapters/storage/sqlite_event_store.py:75-76 | with a location table keyed by numbers, a loaded state meets a list of required locations exactly if the list is empty |

## Left out

- Win32 process access, mailbox scanning, websockets, asyncio timing, subprocesses, argument parsing and rendering: I/O;
  memory is a byte map, the network a set of messages.
- EeMachine.Exec: registers are 32 bits wide; the upper halves of the R5900's 128-bit registers are not modelled, and
  the instructions no payload uses are outside the machine.
- EeMachine.Step: memory addresses are not translated or mapped, and there are no caches; code written is code fetched.
- DetectHook.DetectHookAppends: one run of a trampoline is atomic with respect to a drain; a drain between the count
  store and the record stores is not modelled.
- DenyGate.DenyGateOn: keeping to the calling convention includes leaving the 32 bytes above the callee's sp alone; a
  callee that uses the o32 argument home area there would overwrite the saved registers of the original frame.
- PurchaseEndToEnd.PermitsEnforcedByName: that the lookup answers by name and leaves the permit mailbox alone is a premise
  on the one call; the game function itself is not part of this model.
- CallChain.ChainTransparent: the handler standing at the chained address is this payload's career-load handler; the
  build-13 payload the logger's tool names is not part of this model.
- PurchaseAccount.ExactlyOnce: for fewer than 2^32 events and earlier purchases together; WrapLosesPurchase shows the
  count is lost beyond that. With failed reads, NoRepeatIff and LostIff say what holds.
- MoneyConservation.EveryPollExactIff: a poll reads the wallet and the catalog at once; a game event between its two reads
  is not modelled.
- MoneyConservation.PurchasesConserveMoney: for amounts that fit the 32-bit wallet word; the setter's truncation of a
  larger floor is modelled in the class, not in the runs.
- Permits.SetVehiclePermits: the bridge is online (else the write raises), and the sorted result is a set.
- HookManager.HookManager.InstallHook: the bridge is online (else the access raises).
- HookManager.RestoreAllUndoesRun: the install commands of the tools, which write their own original words back, are
  the same patch with fixed words and are left out.
- MipsAssembler.Assembler.Emit: negative shift amounts and the pnach, hexdump and text outputs are left out.
- MipsDisasm.Decode: an instruction carries the number of its table row, which `DisasmTables` names; text formatting is
  left out.
- Gates.EvaluateGate: a missing requirement is a value instead of its message; `evaluate_all_gates` maps it over gates.
- Reducer.ReduceDesiredState: the state hash, the seed fields passed through, and case folding outside ASCII are left out.
- ItemLedger.ItemApplier.Apply: the money pattern is a parameter, any function from names to amounts.
- ApProtocol.ArchipelagoClient.SendLocationChecks: the ids of a packet are a set, without order or repetition.
- GameWatcher.GameWatcher.PollOnce: a best time is its raw word instead of a float, and time stamps are left out.
- EventStore.RunKeeps: nothing in the repository connects the event service with the client service; the runs put both
  on one state. The goal and money keys of the connection table, which nothing writes, load as their defaults; snapshot
  and event rows, timestamps and JSON are left out.
- EventStore.ClientService.OnLocationChecked: the reconciliation after the check pushes the reduced state to the game and
  changes nothing here.
- StaticXref.FindDatarefs: the image is a sequence of words; `find_strings` and `function_start` are left out. That a
  register keeps its lui value up to the use is a premise of PairFormsIff, as the search takes it for granted.
- `tools/probe_dealer_display.py`: its code overwrites saved registers, so it has no transparency to prove.
- `classify_item_name`, `classify_check_name`: prefix tables, each case settled by reading one branch.
- `worlds/mc3/items.py`, `locations.py`, `__init__.py`, `slot_data.py`: world generation on a framework that is not part
  of this model.
- Heuristic search tools, test doubles and the scenario runner: no specification to prove against.
