# Verified model of the JASPER memory-map compiler

JASPER turns a list of yellow blocks into an FPGA design. Its core assigns bus addresses and slave indices to the
devices the blocks register and emits the tables used by the generated hardware and by software. This project models
that core in Dafny and proves what it guarantees, and exactly when it does not.

* **Wishbone** (`WbPlacement`, `WbArbiter`, `WbDecode`, `WbOverlap`, `WbSlots`, `WbOrder`, `WbSystem`, `WbModule`). A
  two-pass allocator with a moving cursor, a sort, and a flat or two-level decode. Slave indices are handed out in
  visit order while the tables are written in address order. Main results: every requested offset is honoured and the
  other devices follow one another without a gap (`WbModule.VerilogModule.WbCompute`); with alignment at least 2 the
  allocator adds no overlap to aligned requests (`WbPlacement.NoOverlap`); the two-level decode equals the flat one
  for every address (`WbDecode.TwoLevelIsFlat`; for overlapping windows exactly under the condition of
  `WbOverlap.SameStrobesIff`); and the finished bus serves every device for every address if and only if the requested
  offsets rise in visit order, the requested windows do not overlap, and none of them is left under the cursor with
  devices still to be packed (`WbModule.ComputedBusCorrectIff`), which cannot happen with aligned requests and an
  alignment of at least 2 (`WbSystem.AlignedRequestsIff`).
* **AXI4-Lite** (`AxiLayout`, `AxiMap`, `AxiOrder`, `AxiGuarantees`, `AxiFinished`, `AxiModule`). Ganging, rounding,
  ordering, packing. Main results: what the finished map and the devices hold, field by field
  (`AxiFinished.MapIsFinished`); natural alignment holds for all maps if and only if the alignment is a power of two;
  the layout is free of overlap if and only if the register lists give the software registers fitting spots; every
  device is addressed if and only if no late `sw_reg` displaces the shared interface and every software register finds
  a register of its name.
* **Netlist** (`WriteOnce`, `Netlist`, `NetRuns`, `NetPromotions`, `NetCalls`). Write-once attributes and block
  dictionaries over whole runs; for the instantiation of child ports exactly when it goes through, what it leaves in
  the parent, and exactly when it can be repeated, all in terms of the child ports.
* **Toolflow** (`Expansion`, `TclStages`, `Checksum`, `RegisterTable`, `RegisterRoundTrip`, with `Text`, `Csv` and
  `PyInt`). Child expansion as breadth-first order, Tcl stages as a stable partition, the padded checksum, and the
  print/parse chain of the register table.
* **Clocks** (`Mmcm`, `ClkFactors`). Two divider searches over all real frequencies.
* **Integer lists** (`IntList`).

`dafny verify dfyconfig.toml` checks everything.

## Modelling notes

* Objects whose fields the program updates are classes (`VerilogModule`, `WbDevice`, `Instance`, `AxiBus`,
  `NetModule`, `Toolflow`, `Backend`); a list or dictionary field is a `seq` or `map` the methods reassign. AXI
  devices are records in a list field, referred to by position, which stands for object identity.
* Exceptions are outcome values. Where a method fails, its contract says exactly when.
* Frequencies are exact reals and sizes exact integers in place of Python floats; `2 ** ceil(log2(n))` is the least
  power of two.
* Table entries and decoded addresses are 32-bit words with wrap-around.
* Python's stable `sorted` is modelled by stable insertion. Dictionary iteration order is insertion order where it
  matters, and arbitrary in `SearchDictForName`.
* Where code and comments disagree the code is followed: the devices are sorted in ascending, not descending, address
  order (jasper_library/verilog.py:727-729); a comment that is set twice raises instead of being appended
  (jasper_library/verilog.py:36-37); the user clock of the MMCM search is half the bit clock, not an eighth
  (jasper_library/yellow_blocks/adc5g.py:20-21, 79-81).
* Properties that fail for some inputs have a concrete failing input beside their exact condition:
  `WbPlacement.ByteAlignmentOverlaps`, `WbSystem.FallingOffsetsSwapDevices`, `AxiGuarantees.BramCalledSwReg`,
  `AxiGuarantees.UnnamedRegister`, `AxiGuarantees.BorrowedName`, `NetRuns.MixedWidthRaisesAgain`,
  `Mmcm.VcoNotRechecked`, `WbOverlap.LongWindowIsCut`.

## Model

| member | source | states |
|---|---|---|
| WbPlacement.WindowsCoverAndAlign | jasper_library/verilog.py:691-720 | every window holds its device, exceeds it by less than one alignment unit and starts on the grid of the base address |
| WbPlacement.CursorOnGrid | jasper_library/verilog.py:694-722 | the moving cursor stays on the alignment grid over both passes |
| WbPlacement.CursorClearIffNoneStuck | jasper_library/verilog.py:694-697 | after the first pass the cursor is above every requested window if and only if no device ended exactly on the cursor it met without a later one moving it on |
| WbPlacement.AlignmentClearsCursor | jasper_library/verilog.py:694-697 | with alignment at least 2 the strict comparison never leaves the cursor on an occupied byte |
| WbPlacement.DisjointIff | jasper_library/verilog.py:670-724 | for any alignment, all windows of both passes are disjoint exactly when the requested ones are and, if anything is packed behind them, none is stuck on the cursor |
| WbPlacement.NoOverlap | jasper_library/verilog.py:670-724 | with alignment at least 2 and aligned requests the allocator adds no overlap: all windows are disjoint if and only if the requested ones are |
| WbPlacement.ByteAlignmentOverlaps | jasper_library/verilog.py:694-697 | with alignment 1 a requested one-byte device shares its byte with the first packed one |
| WbPlacement.AscendingIff | jasper_library/verilog.py:670-729 | for every alignment, aligned or overlapping requests included, visit order is address order if and only if the requested offsets rise in visit order |
| WbPlacement.PlaceGrants | jasper_library/verilog.py:691-722 | a requested device starts at the base address plus its offset, the others follow one another from where the requested windows end, and every window is the least multiple of the alignment that holds its device |
| WbArbiter.GenMasterArbiter | jasper_library/verilog.py:304-347 | the loops of the generator, run on the chunks of a device list, write exactly the specified primary tables, relative sub-tables and slave counts |
| WbArbiter.CountDevices | jasper_library/verilog.py:258-262 | the device total over all arbiters |
| WbArbiter.SlaveCounts | jasper_library/verilog.py:322-328 | the N_SLAVES_ARB values computed from the total alone |
| WbArbiter.LowestBases | jasper_library/verilog.py:308-313 | the minimum base of each chunk, capped at 0xFFFFFFFF |
| WbArbiter.RelativeEntries | jasper_library/verilog.py:330-347 | one chunk's tables, last device first, as 32-bit differences from the chunk's minimum |
| WbArbiter.PrimaryEntries | jasper_library/verilog.py:741-751 | the primary tables, last chunk first, from first base and last high |
| WbDecode.EncodeOnly | jasper_library/hdl_sources/wbs_arbiter/wbs_arbiter.v:41-53 | the encoder returns the selected line when exactly one is selected |
| WbDecode.FlatAddressAt | jasper_library/hdl_sources/wbs_arbiter/wbs_arbiter.v:85-94 | the selected device of a flat table sees the address relative to its own base |
| WbArbiter.SlaveCountIsChunkSize | jasper_library/verilog.py:322-328 | N_SLAVES_ARBi is the real length of chunk i for every device count and chunk size |
| WbArbiter.ChunksCoverDevices | jasper_library/verilog.py:739 | the chunk lengths add up to the device count |
| WbDecode.Locate | jasper_library/verilog.py:739 | position g of the sorted list is slave g mod max of chunk g div max |
| WbArbiter.ConcatBit | jasper_library/verilog.py:374-381 | element j of vector i lands at bit i*max + j of the concatenated bus |
| WbDecode.PrimaryForwards | jasper_library/verilog.py:741-751 | a strobed chunk receives the address relative to its first base, and no other chunk is strobed |
| WbDecode.SubHit | jasper_library/verilog.py:330-347 | inside a strobed chunk a slave is selected exactly when the original address is in its absolute window |
| WbDecode.StrobeAt | jasper_library/verilog.py:374-390 | the global line of a device is strobed by the hierarchy exactly for that device's own addresses |
| WbDecode.AddressAt | jasper_library/verilog.py:330-347 | the address word of sub-arbiter rank div max is relative to the selected device's base |
| WbDecode.TwoLevelIsFlat | jasper_library/verilog.py:304-390 | for sorted disjoint windows and every 32-bit address the two-level decode produces the same strobe vector as one flat table, and the same relative address at every selected device |
| WbOverlap.SameStrobesIff | jasper_library/verilog.py:304-390 | for every sorted list, overlapping windows included, the two-level strobes equal the flat ones for every address if and only if no device reaches beyond the last high of its chunk, and wherever a later chunk starts inside an earlier one the earlier devices start together and last as long as the two ranges overlap |
| WbOverlap.ForwardsHighest | jasper_library/verilog.py:741-751 | the primary arbiter forwards an address relative to the highest chunk whose range contains it |
| WbOverlap.LongWindowIsCut | jasper_library/verilog.py:741-751 | a window from 0 to 100 in front of one from 10 to 20 in the same chunk is not reached at address 50 |
| WbSystem.SortSorts | jasper_library/verilog.py:727-729 | the sort is a permutation into ascending base order that leaves exactly the ascending lists alone |
| WbSystem.LineServesRank | jasper_library/verilog.py:727-768 | whatever the visit order, strobe line k answers to the k-th window in address order, flat or hierarchical |
| WbSystem.CorrectIffAscending | jasper_library/verilog.py:674-768 | each device answers exactly its own addresses if and only if every visit index is the device's rank in the sorted table |
| WbSystem.ServesIff | jasper_library/verilog.py:674-768 | windows in the 32-bit space are served (strobed for their own addresses only, alone, with the address relative to their base) if and only if they are disjoint and visited in address order |
| WbSystem.InterconnectCorrectIff | jasper_library/verilog.py:668-768 | from requests to strobes and addresses, for every alignment: the interconnect serves every device if and only if the requested offsets rise in visit order, the requested windows do not overlap, and none is left under the cursor with devices still to be packed |
| WbSystem.AlignedRequestsIff | jasper_library/verilog.py:670-724 | with alignment at least 2 and aligned offsets the last of these conditions always holds |
| WbSystem.RankIffAscending | jasper_library/verilog.py:674-729 | the visit index of every device is its rank in the sorted table if and only if the requested offsets rise in visit order, for every alignment |
| WbSystem.FallingOffsetsSwapDevices | jasper_library/verilog.py:674-729 | two devices requested in falling order answer to each other's addresses |
| WbSlots.LookupInRangeIff | jasper_library/verilog.py:678-693 | the identifier lookup of the first pass stays in range if and only if an instance lists its requested devices first |
| WbSlots.SortBlocksSorts | jasper_library/verilog.py:674 | blocks are visited in name order in the first pass |
| WbSlots.LexLeqIff | jasper_library/verilog.py:674 | name order is character order: at the first difference the smaller character, else the shorter name |
| WbSlots.UpperAt | jasper_library/verilog.py:1465 | identifiers are made with the capital letters of the small ones, every other character staying as it is |
| WbSlots.SameInstances | jasper_library/verilog.py:674-703 | both passes see the same instances and devices although they walk the blocks in different orders |
| WbSlots.VisitRequests | jasper_library/verilog.py:674-724 | the visit order is all requested devices followed by all others |
| WbSlots.VisitDistinct | jasper_library/verilog.py:674-724 | no device is visited twice |
| WbOrder.VisitOrder | jasper_library/verilog.py:674-724 | the first pass visits exactly the requested devices over the blocks in name order, the second exactly the others over the blocks as entered, instance by instance and device by device, each under the identifier of its instance and number |
| WbOrder.AllVisited | jasper_library/verilog.py:674-724 | every device of the module is visited, in the first pass if and only if it asks for an offset |
| WbSlots.SamePortIff | jasper_library/verilog.py:950-971 | two devices name the same port if and only if their suffixes agree without trailing blanks |
| WbSlots.WireNth | jasper_library/verilog.py:1458-1478 | connecting a device's ports raises if and only if another device of the instance already uses its suffix, trailing blanks aside |
| WbModule.VerilogModule.AssignInterface | jasper_library/verilog.py:1458-1478 | the device gets its sub-arbiter id, its identifier is appended, and its write-once ports, named by the stripped suffix, are connected unless they are connected to another identifier |
| WbModule.VerilogModule.AssignInterfaces | jasper_library/verilog.py:678-684 | the first inner loop numbers and wires an instance's wanted devices, and raises only if two devices share a port suffix |
| WbModule.VerilogModule.SetAddresses | jasper_library/verilog.py:691-697 | one device's base, high and the new cursor, in both forms |
| WbModule.VerilogModule.AddLocalparam | jasper_library/verilog.py:993-1007 | a localparam keeps its first value; another value is an error |
| WbModule.VerilogModule.PlaceDevices | jasper_library/verilog.py:687-699 | the second inner loop addresses and numbers the wanted devices, or fails exactly because of their order or a repeated identifier |
| WbModule.VerilogModule.Pass | jasper_library/verilog.py:674-699 | one pass over all instances keeps windows, arbiter ids and localparams in step with the visit |
| WbModule.VerilogModule.EmitTables | jasper_library/verilog.py:734-768 | the emitted tables are those of the sorted windows, flat or hierarchical |
| WbModule.SortDevices | jasper_library/verilog.py:729 | the device objects end up sorted by base address |
| WbModule.VerilogModule.WbCompute | jasper_library/verilog.py:651-768 | completes if and only if every instance lists its requested devices first under different port suffixes and identifiers are distinct; then every requested device has base_addr = base + req_offset, the others follow one another with base_addr = previous high_addr + 1 from where the requested ones end, every span is the least multiple of the alignment that holds nbytes, its localparam is its visit index, its sub_arb_id is that index div the chunk size (0 without sub-arbiters), and the tables describe the sorted windows |
| WbModule.AnswersIffServed | jasper_library/verilog.py:1464-1478 | in the state wb_compute leaves, the line a device's localparam names and the address word its sub_arb_id names, driven from the emitted tables, behave as the placement prescribes |
| WbModule.ComputedBusCorrectIff | jasper_library/verilog.py:651-768 | over that state, every device answers exactly the addresses in its range, alone and with the relative address, if and only if the requested offsets rise over the blocks in name order, the requested windows do not overlap, and none is left under the cursor with devices still to be packed |
| AxiLayout.CeilPow2Least | jasper_library/verilog.py:868-870 | the rounded size is the least power of two not below the size |
| AxiLayout.PackedNaturally | jasper_library/verilog.py:859-901 | power-of-two sizes packed largest first under a power-of-two alignment all start on multiples of their own size |
| AxiLayout.NaturalIffPow2 | jasper_library/verilog.py:859-901 | natural alignment holds for all maps if and only if the alignment is a power of two |
| AxiLayout.PackedApart | jasper_library/verilog.py:885-901 | interface windows never overlap |
| AxiLayout.ExtentBelowDouble | jasper_library/verilog.py:868-901 | the extent is below twice the raw sizes when none is smaller than a power-of-two alignment |
| AxiMap.GangCollects | jasper_library/verilog.py:802-857 | for every registered list, one shared interface holds the software registers that no later sw_reg displaced, with prefix-sum offsets for the first register of each, every other device has its own interface, and there is nothing else |
| AxiMap.DisplacedIsUnlisted | jasper_library/verilog.py:831-857 | a software register followed by a device of another kind called sw_reg is in no interface |
| AxiModule.AxiBus.AddAxi4liteInterface | jasper_library/verilog.py:1492-1507 | a repeated name is ignored; a device without registers gets one of its own name and size |
| AxiModule.AxiBus.GangDevices | jasper_library/verilog.py:802-857 | the ganging loop and the register lists it takes away |
| AxiModule.AxiBus.RoundSizes | jasper_library/verilog.py:868-870 | all sizes rounded, or a domain error exactly when a size is below one |
| AxiModule.AxiBus.OrderEntries | jasper_library/verilog.py:872-883 | the selection loop terminates and pops the interfaces largest first |
| AxiOrder.OrderedPermutes | jasper_library/verilog.py:872-883 | ordering keeps each interface exactly once |
| AxiOrder.OrderedDescends | jasper_library/verilog.py:872-883 | ordering is descending in size |
| AxiModule.AxiBus.MatchRegisters | jasper_library/verilog.py:892-896 | every device of the shared interface gets the address of the last register with its name |
| AxiModule.AxiBus.AssignAddresses | jasper_library/verilog.py:885-901 | relative addresses are prefix sums and base addresses follow from them |
| AxiModule.AxiBus.Axi4liteMemoryMap | jasper_library/verilog.py:770-901 | fails exactly if some interface has no bytes; otherwise, over the fields left behind: the first interface is at relative address 0 and each next one at the previous plus its size rounded up to the alignment; larger ones come first, equal ones in order of first registration; each entry is that of one device or the shared one with the registers of its devices; a device has base + the relative address of its interface, in the shared one plus the offset of the last register of its name; only software registers, block RAMs and raw devices lose their register lists |
| AxiFinished.MapIsFinished | jasper_library/verilog.py:802-901 | the same of the map and the devices for every registered list |
| AxiFinished.AllSizedIff | jasper_library/verilog.py:868-870 | rounding raises no error if and only if every device with an interface of its own has bytes, and so has the shared interface |
| AxiFinished.OrderedStable | jasper_library/verilog.py:872-883 | interfaces of equal size keep their order |
| AxiFinished.SharedLayout | jasper_library/verilog.py:807-829 | in the shared interface the register lists follow one another, the first register of each but the very first moved to where the sizes before it end |
| AxiGuarantees.AddressedIffSpot | jasper_library/verilog.py:886-901 | a device receives an address if and only if it is not displaced and, if it is ganged, a shared register carries its name |
| AxiGuarantees.LaidOutIff | jasper_library/verilog.py:802-901 | after rounding, ordering and packing all addressed devices lie inside their interfaces without overlap if and only if the spots their register lists give them fit the shared interface and do not overlap |
| AxiGuarantees.DefaultRegistersFit | jasper_library/verilog.py:1495-1500 | the single registers that registration supplies by default always fit |
| AxiGuarantees.DeviceInsideInterface | jasper_library/verilog.py:886-901 | every addressed device's bytes then lie inside its interface's window |
| AxiGuarantees.DevicesDisjoint | jasper_library/verilog.py:802-901 | no two addressed devices then overlap, displaced ones or not |
| AxiGuarantees.BorrowedName | jasper_library/verilog.py:892-896 | two software registers share an address when the second brings a register with the first one's name |
| AxiGuarantees.MapAlignedAndTight | jasper_library/verilog.py:861-901 | every interface of the finished map starts at a multiple of its size and the extent is below twice the raw sizes |
| AxiGuarantees.AllAddressedIff | jasper_library/verilog.py:807-901 | every registered device receives an address if and only if no device of another kind called sw_reg is registered after a software register and every ganged device finds a register of its name among those of the ganged devices |
| AxiGuarantees.ClobberedIsUnaddressed | jasper_library/verilog.py:831-901 | the register thrown out never receives an address |
| AxiGuarantees.BramCalledSwReg | jasper_library/verilog.py:831-841 | a block RAM called sw_reg after a software register makes the register lose its address |
| AxiGuarantees.UnnamedRegister | jasper_library/verilog.py:892-896 | a software register whose list carries another name is never addressed |
| WriteOnce.UpdateAttrs | jasper_library/verilog.py:152-176 | assignments one after the other, stopping at the first exception and keeping those before it |
| WriteOnce.AfterExtends | jasper_library/verilog.py:31-42 | no sequence of assignments changes a value that is not None, whether it raises or not |
| WriteOnce.WritesSucceedIff | jasper_library/verilog.py:31-42 | assignments go through if and only if each agrees with the stored value and with every earlier assignment to the same attribute, None being overwritable but not restorable |
| WriteOnce.AfterMerges | jasper_library/verilog.py:31-42 | what is stored afterwards is exactly what was there and what was written |
| WriteOnce.SettlingHistory | jasper_library/verilog.py:31-42 | a history in which values are never changed is None values followed by one constant |
| NetCalls.SearchDictForName | jasper_library/verilog.py:1510-1520 | a block holding the name, in whatever order the blocks come, or none exactly when no block holds it |
| NetCalls.NetModule.SetCurBlk | jasper_library/verilog.py:626-643 | a new block gets empty dictionaries; an existing one is entered unchanged |
| NetCalls.NetModule.AddPort | jasper_library/verilog.py:950-975 | a port is updated where it lives or created in the current block, with unconnected, constant and expression signals not promoted |
| NetCalls.NetModule.AddSignal | jasper_library/verilog.py:1009-1026 | a signal is updated where it lives or created in the current block |
| NetCalls.NetModule.InstantiateChildPorts | jasper_library/verilog.py:1059-1078 | goes through if and only if every port to be promoted has a direction and no wish meets another value, in the parent or from an earlier port; then the parent has every promoted port with its width and direction and every promoted signal with its width, nothing else is new, and new names live in the block that was first to ask |
| Netlist.StepKeeps | jasper_library/verilog.py:950-1026 | every call, raising or not, keeps each name in its block and each settled value |
| NetRuns.NamesStay | jasper_library/verilog.py:950-1026 | over every run a name never moves to another block |
| NetRuns.AttributesSettle | jasper_library/verilog.py:31-42 | over every run, exceptions included, the values of each attribute are None values followed by one constant |
| NetRuns.OneHomeIffAdded | jasper_library/verilog.py:950-1026 | over every run a name is in exactly one block if some call for it went through and in none otherwise |
| NetRuns.HomeIsWhereAdded | jasper_library/verilog.py:950-1026 | over every run a name lives in the block that was current at the first call for it that went through, and in no other |
| NetRuns.CurrentBlock | jasper_library/verilog.py:626-643 | the current block is the last one entered, or the default one |
| NetRuns.PromotionFlags | jasper_library/verilog.py:950-964 | an added port holds its stripped name, its signal, its width and every keyword argument, and asks for a parent port, or else for a parent signal, only if its signal starts with a letter |
| NetRuns.SignalStored | jasper_library/verilog.py:1009-1026 | an added signal holds its stripped name, its width and every keyword argument, except that a new one swallows a keyword called signal |
| NetRuns.AddPortIff | jasper_library/verilog.py:950-975 | add_port goes through if and only if the signal is no number and nothing else is stored for what it wants |
| NetRuns.AddSignalIff | jasper_library/verilog.py:1009-1026 | add_signal goes through if and only if nothing else is stored for what it wants |
| NetRuns.SecondInstantiation | jasper_library/verilog.py:1059-1078 | after a completed instantiation a second one never changes a port or signal, and raises nothing if and only if no name was promoted both with and without a width or direction |
| NetPromotions.CompletesIff | jasper_library/verilog.py:1059-1078 | in terms of the child ports: the instantiation goes through if and only if every port to be promoted has a direction and each wish agrees with what is stored and with the earlier wishes for that name |
| NetPromotions.InstantiationPromotes | jasper_library/verilog.py:1059-1078 | in terms of the child ports: what a completed instantiation leaves in the parent, where every value comes from, and which names are new |
| NetPromotions.RepeatsIff | jasper_library/verilog.py:1059-1078 | in terms of the child ports: a second instantiation goes through if and only if the ports that ask for one name all set its width or all leave it open, and likewise its direction |
| NetRuns.DeclaredIdempotent | jasper_library/verilog.py:1059-1078 | with all widths and directions set, instantiating again raises nothing and changes nothing |
| NetRuns.MixedWidthRaisesAgain | jasper_library/verilog.py:1059-1078 | two child ports on one signal, the first with width None: the first instantiation completes and the second raises |
| Expansion.Toolflow.ExpandChildren | jasper_library/toolflow.py:419-446 | the population grows by all later generations, or by one when not recursive; an empty list of parents stands for the population; termination by the nodes not yet expanded |
| Expansion.LevelsAreBreadthFirst | jasper_library/toolflow.py:419-446 | the population followed by its generations is the order of a breadth-first queue |
| Expansion.EachNodeOnce | jasper_library/toolflow.py:419-446 | that order contains every node of the forest as often as the forest does |
| Expansion.ExpandAll | jasper_library/toolflow.py:415 | expanding a list of blocks yields the breadth-first order of the forest, every block invited once in that order |
| TclStages.Backend.AddTclCmd | jasper_library/toolflow.py:1704-1711 | a command is appended to its stage's text; an unknown stage raises |
| TclStages.Backend.EvalTcl | jasper_library/toolflow.py:1713-1726 | the script is that of the calls, partitioned by stage |
| TclStages.ScriptLines | jasper_library/toolflow.py:1704-1711 | commands without newlines come out one on each line |
| TclStages.PartitionStable | jasper_library/toolflow.py:1704-1726 | within each stage the partition keeps the calls in order, none lost or repeated |
| TclStages.PartitionOrdered | jasper_library/toolflow.py:1713-1726 | stages come in the order eval_tcl lists them |
| TclStages.PartitionPermutes | jasper_library/toolflow.py:1704-1726 | the partition is a permutation of the calls |
| Checksum.CalculateChecksum | jasper_library/toolflow.py:1315-1344 | the word sum of the stream padded with 0xFF to whole packets, modulo 65536, also in bytes: 256 times those at even positions plus those at odd ones; an error exactly for odd streams or a zero packet size |
| Checksum.WordSumBytes | jasper_library/toolflow.py:1329-1333 | the sum of words is 256 times the sum of the bytes at even positions plus the sum of those at odd positions |
| Checksum.WordAt | jasper_library/toolflow.py:1329-1333 | a word's high byte comes first in the stream |
| Checksum.PaddedLength | jasper_library/toolflow.py:1335-1337 | padding reaches a whole number of packets with less than one packet |
| Checksum.PaddingTwice | jasper_library/toolflow.py:1335-1339 | a stream padded beforehand has the same checksum |
| Checksum.PaddedEven | jasper_library/toolflow.py:1335-1339 | with an even packet size the padded stream can be summed |
| Checksum.AdditiveAtPackets | jasper_library/toolflow.py:1315-1344 | checksums add up modulo 65536 when a stream is split at a packet boundary |
| RegisterTable.WriteCoreInfo | jasper_library/toolflow.py:533-544 | the table has one row per core, at its base address, and behind it one per alias, at the base address plus the offset of the alias, in order and nothing else; the width is that of the longest core name |
| RegisterTable.RowLayout | jasper_library/toolflow.py:533-544 | a row is the name, the mode digit, address and size in hexadecimal, left-justified to the width and to 16 characters, one blank apart |
| RegisterTable.MkRegisters | jasper_library/toolflow.py:1256-1259 | one register row per line, or an error exactly when a line does not have four columns |
| RegisterTable.ReadRegisters | jasper_library/hdl_sources/jtag_axil_master/jtag_axil_master_fpg_to_tcl.py:79-86 | the assignments of the rows up to the first meta row, in order, and the dictionary they fill |
| RegisterTable.ModeDigit | jasper_library/toolflow.py:526 | the mode column has bit 0 for readable and bit 1 for writable |
| RegisterTable.RowColumns | jasper_library/toolflow.py:533-544 | a printed row splits into its four columns, however long the name is |
| Csv.FieldThenTab | jasper_library/hdl_sources/jtag_axil_master/jtag_axil_master_fpg_to_tcl.py:80 | the reader takes a field as it is, quotes inside it included, unless it starts with a double quote |
| Csv.QuotedField | jasper_library/hdl_sources/jtag_axil_master/jtag_axil_master_fpg_to_tcl.py:80 | a name that starts with a double quote is never read as itself: it comes out shorter or runs on over the tab |
| Csv.QuotingRoundTrip | jasper_library/hdl_sources/jtag_axil_master/jtag_axil_master_fpg_to_tcl.py:80 | any text, tabs, newlines and quotes included, comes back as one field if it is quoted and its own quotes are doubled |
| RegisterRoundTrip.RoundTripIff | jasper_library/toolflow.py:1256-1259 | printing, splitting and reading give back all names and addresses in order if and only if every name is non-empty, free of whitespace and does not start with a double quote |
| RegisterRoundTrip.GoodRows | jasper_library/toolflow.py:1256-1259 | with good names the rows of the file carry name, address and size, two header rows before them |
| RegisterTable.LastWins | jasper_library/hdl_sources/jtag_axil_master/jtag_axil_master_fpg_to_tcl.py:86 | the last assignment to a name is the one in the dictionary |
| RegisterTable.DictionaryNames | jasper_library/hdl_sources/jtag_axil_master/jtag_axil_master_fpg_to_tcl.py:86 | the dictionary has the assigned names and no others |
| RegisterRoundTrip.Chain | jasper_library/hdl_sources/jtag_axil_master/jtag_axil_master_fpg_to_tcl.py:79-86 | with good names, and only then, the chain of the three programs yields every core with its base address and behind it every alias with the base address plus its offset, in order, and nothing else |
| Mmcm.AcceptsIff | jasper_library/yellow_blocks/adc5g.py:77-89 | the four guards amount to m being a whole multiple of d up to 63, whatever the bit clock |
| Mmcm.Try | jasper_library/yellow_blocks/adc5g.py:75-95 | one candidate is accepted exactly then, with the frequencies and dividers it stands for |
| Mmcm.Search | jasper_library/yellow_blocks/adc5g.py:74-97 | the first accepted pair in loop order, or none exactly when no pair is accepted |
| Mmcm.GetMmcmParams | jasper_library/yellow_blocks/adc5g.py:47-97 | succeeds if and only if the bit clock f is from 10 to 28800 MHz, with the least d that brings f/d to 450 MHz, the least o0 that lifts f*o0 to 600 MHz, m = d*o0, o1 = 2*o0, f_pfd = f/d and f_vco = f*o0 |
| Mmcm.SolvesUnique | jasper_library/yellow_blocks/adc5g.py:47-97 | there is only one such dictionary |
| Mmcm.LegalIff | jasper_library/yellow_blocks/adc5g.py:47-97 | the result has its phase-detector frequency in [10, 450] and VCO at least 600, and VCO at most 1200 if and only if the bit clock is at most 1200 |
| Mmcm.VcoNotRechecked | jasper_library/yellow_blocks/adc5g.py:65-97 | at 1300 MHz the search accepts a pair whose VCO frequency is out of range |
| ClkFactors.Visit | jasper_library/clk_factors.py:25-31 | the loop body keeps the first of the closest triples seen so far |
| ClkFactors.ClkFactors | jasper_library/clk_factors.py:1-44 | no triple in the oscillator window gives a frequency nearer to the target than the answer, if one comes closer than 1000 MHz, else the factors are 1; an exact hit is found if there is one, and then the period times the target is 1000; among the nearest triples the first in loop order |
| ClkFactors.FirstClosestUnique | jasper_library/clk_factors.py:21-31 | there is only one such triple |
| ClkFactors.WindowIff | jasper_library/clk_factors.py:11-25 | some triple of allowed factors meets the oscillator window if and only if 650/64 < f < 11500 |
| ClkFactors.ReachableIff | jasper_library/clk_factors.py:1-31 | for targets from 0 to 1000 MHz a triple comes within reach if and only if 650/64 < f < 11500 |
| PyInt.ParseDecimal | jasper_library/helpers.py:9 | int() undoes decimal printing of every integer, with whitespace around it |
| PyInt.ParseHex | jasper_library/hdl_sources/jtag_axil_master/jtag_axil_master_fpg_to_tcl.py:86 | int(_, 16) undoes 0x-prefixed hexadecimal printing |
| PyInt.DigitsAt | jasper_library/toolflow.py:540-544 | printed digits are those of the positional notation, the least significant one last |
| PyInt.DigitsEnough | jasper_library/toolflow.py:540-544 | all digits of the number are printed |
| PyInt.NoLeadingZero | jasper_library/toolflow.py:540-544 | no zero is printed in front |
| IntList.CommaRoundTrip | jasper_library/helpers.py:1-11 | lists printed with commas come back, and only the empty list needs the fallback |
| IntList.SpaceRoundTrip | jasper_library/helpers.py:1-11 | lists printed with spaces come back, and every list but a singleton takes the fallback |
| IntList.OneReading | jasper_library/helpers.py:8-11 | when both forms can be read they give the same list, so the order of the attempts does not matter |

## Left out

- Topfiles: a module is modelled without one, so `base_wb_slaves` is 0 and no file is parsed or rewritten.
- Text generation: Verilog, VHDL, XML and Tcl text is modelled only as tables and positions, apart from the register table.
- Wishbone timing: acknowledge, error and timeout behaviour of the arbiter; only its address decode is modelled.
- Parameters: `add_parameter` and the localparams other than the WBID ones follow the same write-once rule and are not repeated.
- Instance creation: instances and their ports are given; `get_instance`, assignments and source-file lists are not modelled.
- Port objects: ports and signals are values inside the block dictionaries, so aliasing of port objects is not captured.
- WbModule.VerilogModule.WbCompute: stated for a module on which it has not run before, with each device owned by one instance; the design calls it once. Of an instance's ports only those the Wishbone interfaces share a suffix on are modelled, so a block that declares a port of such a name itself is not covered.
- WbModule.ComputedBusCorrectIff: devices have at least one byte and the windows lie in the 32-bit space; the tables truncate what does not.
- WbModule.VerilogModule.AddLocalparam: identifiers are compared after ASCII upper-casing only.
- AxiModule.AxiBus.Axi4liteMemoryMap: stated for an empty memory map, as it is called once; registers are values, so a register list shared between callers is not captured.
- AxiGuarantees.LaidOutIff: devices have at least one byte each.
- NetRuns.PromotionFlags: letters are the ASCII letters; isalpha() also accepts those of other scripts.
- RegisterRoundTrip.RoundTripIff: the base table is empty, lines end at newline characters only, and names hold no NUL character, which older CSV readers refuse.
- RegisterRoundTrip.Chain: the same as RoundTripIff.
- PyInt.ParseDecimal: digits are ASCII digits; int() also reads the decimal digits of other scripts.
- Checksum.AdditiveAtPackets: both parts have even length, since an odd stream has no checksum.
- NetRuns.SecondInstantiation: `sourcefiles` grows on every call and is not part of the compared state.
- Yellow-block wiring lists, design-rule checks, source de-duplication, pin lookup, vendor tools, MD5, gzip and command lines: no algorithm of their own or external.
