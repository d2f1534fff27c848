# Testrun: a verified model

A Dafny model of the parts of Testrun that compute or keep state, with proofs of what they guarantee.
Testrun puts a network device through tests: it runs its own network services, keeps a session whose
status it publishes, collects results, and writes reports; a web interface follows along.

The modules, by the part they model:

- `Pagination`, `RiskPages`: the two paginators of the reports.
- `ReportJson`: reading and writing report files.
- `RiskProfile`: validating a risk profile and rating it.
- `TestResults`, `Publishing`, `Session`: the session: results by test name, the status messages of
  tracked methods, and the class that holds the state.
- `Device`, `DeviceStore`, `DeviceAnswers`, `DeviceApi`: device objects, requests on them as steps of one
  state, their answers, and the handlers that carry the steps out on shared objects.
- `NetModules`: loading network modules and starting services in dependency order.
- `Adapters`, `StatusStream`: session and user interface as the two ends of a channel.
- `DhcpText` and the other `Dhcp...` modules: printer and parser of the DHCP configuration and their
  round trip; `DhcpConfig`: its classes; `ReservedHosts`: removal from a list in a loop over it.
- `Bits`, `Ipv4`, `AddressRange`, `StoredRange`: prefixes, masks and broadcasts (section 3.1 of RFC 4632,
  section 4.2.2.11 of RFC 1812).
- `Leases`: cutting lease blocks out of a text.
- `Common`, `Text`, `Lines`, `Status`: results and exceptions, Python's string operations, statuses.

Code that works on objects is modelled by classes whose methods are proved equal to functions on values;
what the code promises is then proved of these functions over all inputs and all runs. A Python loop
that need not end takes the number of its turns as a parameter, without any bound, and a theorem says
when some number is enough: exactly when in `PagingEndsIff`, `ScanEndsIff` and `BrokenOffEndsIff`, for every
well-formed file in `DeleteLeaseCorrect`. Nested calls take the depth that the interpreter allows in the same way
(`LoadingEndsIff`).

## Where the code differs from what one would expect

- A result row higher than a page stalls the report pagination (`PagingEndsIff`); a description of more than
  2652 characters makes one, and so do details that are long enough (`TooHighIff`, `LongRowStalls`).
- The paginator of risk profiles forgets the height of a page's first row (`BoundIsSharp`).
- A reserved host that follows another match survives its removal (`HalfOfEveryRunStays`).
- Each reading of a DHCP configuration adds a blank to every host name (`CyclesGainBlanks`).
- `set_range` always clears the last octet of the subnet, and with small ranges the start can lie above
  the broadcast (`RangeCovered`, `NarrowRangeStartsOutside`); given backwards a range can lie below its subnet
  (`ReversedRangeFallsOutside`).
- `delete_lease` looks for the address as a text: every block that mentions it goes, whatever address the
  block is the lease of (`OtherLeaseGoes`); `AddressesKeptIff` says exactly when only leases of the address go.
- An Informational result can keep recommendations that are not optional: those of an update without a
  result (`InformationalRecommends`); `InformationalStays` says which it keeps.
- A DHCP configuration written with its failover peer disabled has lost the peer when it is read, and from
  the second time on has an enabled peer named `None`; its pools are on again (`CyclesGainBlanks`).
- A module whose dependencies do not exist is skipped without an exception when a module loaded before goes
  by its name (`EndlessSkipped`).
- The docstring of `diff_dicts` promises an empty result for equal dictionaries; the result is empty for
  equal key sets (`DiffBrings`), so a changed address goes unnoticed.
- Report details given as a list are written with their line breaks and flattened only by the second
  writing (`NormalForm`).
- `reset` replaces the adapters without a message (`ResetSyncIff`).
- A module can be left out when its directory is the name of another (`EveryListingLoadsIff`).
- An accepted risk profile cannot be rated when it picks a plain option that spells `risk`
  (`PlainRiskRaises`).
- The lease times of a DHCP configuration are printed and never read back (`RoundTrip`).
- A lease file whose last block is not closed and mentions the address keeps `delete_lease` running for
  ever (`BrokenOffEndsIff`).
- A start that is refused for its interfaces has stored the firmware of the device (`StartAnswers`).
- A run that starts while the end of the last one is on its way is not followed (`NextRunOpenIff`).

## Model

| member | source | states |
|---|---|---|
| `Pagination.ResultList.GenResultPage` | framework/python/src/common/testreport.py:420-436 | one page takes from the shared list the longest run of rows that fits its space, removes exactly those, and writes a height only into rows of more than one line; rows on the page have it written |
| `Pagination.ResultList.GenerateResultPages` | framework/python/src/common/testreport.py:438-447 | the pages and the remaining list are those of the turn-by-turn reference `Pages`; every row on a page that has a height to be written has it |
| `Pagination.FittingIsLongest` | framework/python/src/common/testreport.py:420-436 | the run taken is the longest prefix whose total height fits |
| `Pagination.PagesConserve` | framework/python/src/common/testreport.py:438-447 | at every turn the concatenated pages and the remaining rows are the input rows in order |
| `Pagination.PagesFit` | framework/python/src/common/testreport.py:438-447 | every page keeps its space: that of the first page by the title, 800 on the others |
| `Pagination.PagesFull` | framework/python/src/common/testreport.py:420-447 | the first row of each page would not have fitted on the page before |
| `Pagination.PagingEndsIff` | framework/python/src/common/testreport.py:438-447 | the loop comes to an end if and only if no row is higher than 800; an oversized row stalls it for good |
| `Pagination.RowHeightIs` | framework/python/src/common/testreport.py:410-433 | a row is 15 high for each line of 52 characters of its description and 25 more, and, if it has details, 14 for each line of 45 of them and 12 more |
| `Pagination.WrittenHeightIs` | framework/python/src/common/testreport.py:416-430 | the height written into a row is that of its description, and only if that has more than one line |
| `Pagination.FirstPageSpaceIs` | framework/python/src/common/testreport.py:388-399 | the first page has 440, less 60 for each line of 25 characters of the title after the first |
| `Pagination.TotalByLines` | framework/python/src/common/testreport.py:410-433 | the room that any rows take, in lines of description and of details |
| `Pagination.PagingEndsByLines` | framework/python/src/common/testreport.py:410-447 | in lines: the loop ends exactly if no row has more than 51 lines of description without details, or, with details, 15 a line of description and 14 a line of details over 763 |
| `Pagination.TooHighIff` | framework/python/src/common/testreport.py:410-447 | a row is higher than 800 exactly if it is so long; without details, if its description has more than 2652 characters |
| `Pagination.LongRowStalls` | framework/python/src/common/testreport.py:420-447 | such a row stays in the list after any number of turns |
| `Pagination.PagesOptimal` | framework/python/src/common/testreport.py:420-447 | no split of the rows into consecutive fitting pages has fewer pages |
| `Pagination.FirstPageSpaceOfDevice` | framework/python/src/api/api.py:766-770 | the title made of the manufacturer and model of a device that validation accepts leaves at least 320 on the first page |
| `RiskPages.GenerateReportPages` | framework/python/src/common/risk_profile.py:393-472 | the loop over device questions and profile questions gives the pages of the reference `AllPages`, or the first exception a question raises |
| `RiskPages.PagesInOrder` | framework/python/src/common/risk_profile.py:413-472 | the concatenated pages are all questions in order, numbered from 1 |
| `RiskPages.PagesBounded` | framework/python/src/common/risk_profile.py:457-470 | rows on the first page total at most 760 with what their picks add; on later pages the rows after the first total at most 980; only the first page can be empty |
| `RiskPages.BreaksForced` | framework/python/src/common/risk_profile.py:459-465 | a page is left only when the next row would have gone over its limit |
| `RiskPages.FirstPageEmptyIff` | framework/python/src/common/risk_profile.py:459-465 | with questions to show, the first page is empty exactly when the first of them exceeds 760 |
| `RiskPages.TextRow` | framework/python/src/common/risk_profile.py:419-457 | a row with a text answer is 38 high and 18 more for each line of the longer of question, in lines of 40 characters, and answer, in lines of 38 |
| `RiskPages.PicksRow` | framework/python/src/common/risk_profile.py:419-457 | a row with picks can be made exactly if each is the index of an option that is a dictionary; all options of the question count for its height, picked or not, a dictionary as one line; the picks add 40 each, and their texts are shown in order |
| `RiskPages.BoundIsSharp` | framework/python/src/common/risk_profile.py:459-468 | the bound on later pages cannot be lowered: for a first question of any number n > 40 of lines, which is 18n + 38 high, there are questions whose second page is that height and 980 more |
| `RiskProfile.SanitiseFormat` | framework/python/src/core/session.py:595-611 | the format sent to clients is the sanitised format, question by question |
| `RiskProfile.SameQuestion` | framework/python/src/core/session.py:678-681 | a question is found in the sanitised format exactly when it is in the original, and is its sanitised form |
| `RiskProfile.ValidateProfileJson` | framework/python/src/core/session.py:750-858 | the loop with its early returns decides `Accepts`, including the exceptions it can raise |
| `RiskProfile.AcceptsIff` | framework/python/src/core/session.py:750-858 | exactly what is accepted, in terms of the original format: name not blank, name and rename without the listed characters, questions there and none with a blank text; of each recognised question an answer if the profile is Valid, a text for string and select, then the text of one of the options if Valid, and indices of options for select-multiple |
| `RiskProfile.ValidationRaisesOnly` | framework/python/src/core/session.py:750-858 | with options wherever they are to be, validation raises only for a profile without questions that does not claim to be Valid |
| `RiskProfile.AcceptedQuestion` | framework/python/src/core/session.py:782-856 | each question of an accepted profile passes its own check |
| `RiskProfile.AcceptedIndicesExist` | framework/python/src/common/risk_profile.py:190-196 | for an accepted profile every index of a select-multiple answer is an option of the original format, so the invalid-index branch is never taken |
| `RiskProfile.AcceptedProfileRatesIff` | framework/python/src/common/risk_profile.py:143-211 | rating the questions of an accepted profile succeeds exactly if no select-multiple answer picks a plain option that spells `risk` and no select question lacks its options; the latter cannot happen when the request claims the status Valid |
| `RiskProfile.PlainRiskRaises` | framework/python/src/common/risk_profile.py:190-199 | an accepted profile that claims to be Valid and picks the plain option `risk` cannot be rated: TypeError |
| `RiskProfile.RiskProfile.UpdateRisk` | framework/python/src/common/risk_profile.py:143-211 | writes the risk of each question, then the profile risk; no risk for a profile that is not Valid; an exception leaves the profile risk as it was, the questions before the one that raised rated, and the others untouched |
| `RiskProfile.RiskOfIff` | framework/python/src/common/risk_profile.py:164-201 | a question is rated High exactly when its answer picks an option whose risk is High, the first with its text or that at its index; else it keeps its risk if it is passed over, and is Limited if not |
| `RiskProfile.ProfileRiskIff` | framework/python/src/common/risk_profile.py:143-211 | the profile is High exactly when some rated question picks a High option or some question that is passed over already carries High |
| `RiskProfile.FreshProfileRiskIff` | framework/python/src/common/risk_profile.py:143-211 | without preset question risks the profile is High exactly when some answer picks a High option |
| `RiskProfile.RiskIgnoresOrder` | framework/python/src/common/risk_profile.py:203-211 | neither whether rating succeeds nor the profile risk depends on the order of the questions |
| `Ipv4.QuadRoundTrip` | modules/network/dhcp-1/python/src/grpc_server/dhcp_config.py:139-159 | printing any 32-bit value as a dotted quad and reading it gives the value back |
| `Ipv4.QuadCanonical` | modules/network/dhcp-1/python/src/grpc_server/dhcp_config.py:139-159 | reading a dotted quad of four octets and printing the value gives the same text |
| `Ipv4.PrefixIsLongestCommon` | modules/network/dhcp-1/python/src/grpc_server/dhcp_config.py:139-150 | the prefix length is the length of the longest common prefix of the two addresses |
| `Ipv4.NetmaskBits` | modules/network/dhcp-1/python/src/grpc_server/dhcp_config.py:152-159 | the mask is that many ones, then zeros |
| `Ipv4.MaskSeparates` | modules/network/dhcp-1/python/src/grpc_server/dhcp_config.py:139-159 | every address between the two has the same masked value, and no longer mask has this property |
| `AddressRange.BroadcastValue` | modules/network/dhcp-1/python/src/grpc_server/dhcp_config.py:406-419 | the broadcast has the network bits of the subnet and ones in all host bits |
| `AddressRange.RangeCovered` | modules/network/dhcp-1/python/src/grpc_server/dhcp_config.py:125-159 | both ends lie between the computed subnet and broadcast exactly when the first three octets of the end are not below those of the start and the mask has h >= 8 host bits or the last octet of the start is below 2^h; when that last part fails the start lies above the broadcast |
| `AddressRange.OrderedRangeCovered` | modules/network/dhcp-1/python/src/grpc_server/dhcp_config.py:125-159 | for a range given in order, the one condition is h >= 8 or last octet of the start below 2^h |
| `AddressRange.NarrowRangeStartsOutside` | modules/network/dhcp-1/python/src/grpc_server/dhcp_config.py:125-159 | a failing input: 10.0.0.9 to 10.0.0.10 has a start above its own broadcast |
| `AddressRange.ReversedRangeFallsOutside` | modules/network/dhcp-1/python/src/grpc_server/dhcp_config.py:125-137 | a range given backwards can fall below its own subnet although the mask is wide |
| `StoredRange.SetRangeCovers` | modules/network/dhcp-1/python/src/grpc_server/dhcp_config.py:125-137 | what `set_range` stores in the configuration, what it leaves alone, the subnet, mask and broadcast that it stores, and exactly when they enclose the range |
| `StoredRange.SetRangeMissing` | modules/network/dhcp-1/python/src/grpc_server/dhcp_config.py:125-137 | on a subnet that does not exist nothing changes; on a pool that does not exist subnet, mask and broadcast are stored before the exception |
| `DhcpConfig.DHCPReservedHost.Resolve` | modules/network/dhcp-1/python/src/grpc_server/dhcp_config.py:548-557 | reads the host fields as `HostLines` does |
| `DhcpConfig.DHCPPool.Resolve` | modules/network/dhcp-1/python/src/grpc_server/dhcp_config.py:502-511 | reads the pool fields as `PoolLines` does |
| `DhcpConfig.DHCPFailoverPeer.Resolve` | modules/network/dhcp-1/python/src/grpc_server/dhcp_config.py:280-317 | reads the peer block as `PeerLines` does, from its first line to its closing brace |
| `DhcpConfig.DHCPFailoverPeer.SetEnabled` | modules/network/dhcp-1/python/src/grpc_server/dhcp_config.py:274-278 | switches the peer on or off and changes nothing else of it |
| `DhcpConfig.DHCPSubnet.ResolveSubnet` | modules/network/dhcp-1/python/src/grpc_server/dhcp_config.py:421-445 | reads the subnet fields as `SubnetLines` does |
| `DhcpConfig.DHCPSubnet.ResolvePools` | modules/network/dhcp-1/python/src/grpc_server/dhcp_config.py:447-452 | reads the pools of a subnet |
| `DhcpConfig.DHCPSubnet.SetSubnet` | modules/network/dhcp-1/python/src/grpc_server/dhcp_config.py:396-404 | sets subnet, mask and broadcast; an exception in the broadcast leaves the first two set |
| `DhcpConfig.DHCPSubnet.SetPeerEnabled` | modules/network/dhcp-1/python/src/grpc_server/dhcp_config.py:388-394 | switches every pool of the subnet |
| `DhcpConfig.DHCPConfig.AddReservedHost` | modules/network/dhcp-1/python/src/grpc_server/dhcp_config.py:38-42 | appends exactly one host |
| `DhcpConfig.DHCPConfig.GetReservedHost` | modules/network/dhcp-1/python/src/grpc_server/dhcp_config.py:65-68 | gives the first host with the hardware address, or none if there is none |
| `DhcpConfig.DHCPConfig.DeleteReservedHost` | modules/network/dhcp-1/python/src/grpc_server/dhcp_config.py:44-47 | removing from the list while the loop runs over it leaves `Sweep` of the old list |
| `DhcpConfig.DHCPConfig.ResolveSubnets` | modules/network/dhcp-1/python/src/grpc_server/dhcp_config.py:102-109 | makes a new subnet of each text found |
| `DhcpConfig.DHCPConfig.ResolveReservedHosts` | modules/network/dhcp-1/python/src/grpc_server/dhcp_config.py:111-123 | the host scan makes new hosts with the values of `Scan` |
| `DhcpConfig.DHCPConfig.Make` | modules/network/dhcp-1/python/src/grpc_server/dhcp_config.py:85-91 | assigns subnets, peer and hosts in turn; an exception ends the call and what was assigned stays |
| `DhcpConfig.DHCPConfig.SetRange` | modules/network/dhcp-1/python/src/grpc_server/dhcp_config.py:125-137 | changes exactly one subnet and one pool, in step with `RangeStored`, in the error cases too |
| `ReservedHosts.SweepStays` | modules/network/dhcp-1/python/src/grpc_server/dhcp_config.py:44-47 | the removal never drops a host that does not match, keeps the order, and keeps of adjacent matches every second one |
| `ReservedHosts.HalfOfEveryRunStays` | modules/network/dhcp-1/python/src/grpc_server/dhcp_config.py:44-47 | of every maximal run of k adjacent matches exactly floor(k/2) stay |
| `ReservedHosts.AllRemovedIff` | modules/network/dhcp-1/python/src/grpc_server/dhcp_config.py:44-47 | all matches are removed exactly when no two are adjacent |
| `DhcpRoundTrip.PeerFound` | modules/network/dhcp-1/python/src/grpc_server/dhcp_config.py:280-317 | an enabled peer of a printed configuration is read back with every optional field |
| `DhcpRoundTrip.PeerLost` | modules/network/dhcp-1/python/src/grpc_server/dhcp_config.py:259-317 | of a file in which the lines of the peer are commented out a new peer without fields is read |
| `DhcpDisabledPeer.DisabledSilent` | modules/network/dhcp-1/python/src/grpc_server/dhcp_config.py:259-266 | every line printed of a disabled peer is a comment, and none mentions `subnet` or `host` |
| `DhcpSubnetTrip.PrintPoolLines` | modules/network/dhcp-1/python/src/grpc_server/dhcp_config.py:465-500 | a pool is printed line by line; switched off, with the failover keyword commented out in the middle of its line and nothing else changed |
| `DhcpRoundTrip.PoolFound` | modules/network/dhcp-1/python/src/grpc_server/dhcp_config.py:447-511 | the pool of a printed subnet is read back, switched on even if it was off |
| `DhcpRoundTrip.SubnetFound` | modules/network/dhcp-1/python/src/grpc_server/dhcp_config.py:347-386 | the subnet of a printed configuration is read back with every optional field and its pool, which is on |
| `DhcpHostScan.HostTrip` | modules/network/dhcp-1/python/src/grpc_server/dhcp_config.py:530-557 | a printed host is read back with one more blank at the end of its name |
| `DhcpHostScan.ScanFromStart` | modules/network/dhcp-1/python/src/grpc_server/dhcp_config.py:111-123 | the host scan finds exactly the printed hosts, in order, and ends |
| `DhcpRoundTrip.HostsFound` | modules/network/dhcp-1/python/src/grpc_server/dhcp_config.py:111-123 | the hosts of a printed configuration are read back in order, each name with one more blank |
| `DhcpRoundTrip.RoundTrip` | modules/network/dhcp-1/python/src/grpc_server/dhcp_config.py:85-187 | printing a clean configuration and making one of the text restores peer, subnet, pool and hosts, except that a disabled peer is replaced by one without fields, a pool is switched on, and every host name has one blank more, for any number of scan turns above the number of hosts; the lease times, printed but never read, stay those of the configuration read into |
| `DhcpDeclares.ConfigDeclaresAll` | modules/network/dhcp-1/python/src/grpc_server/dhcp_config.py:161-187 | what the printed text declares, by the words of its lines and not by the parser: one subnet with its address and its mask, each lease time that is set once and by its number, and the role of an enabled peer; a disabled peer declares none |
| `DhcpFile.FileRoundTrip` | modules/network/dhcp-1/python/src/grpc_server/dhcp_config.py:70-100 | the same through a file, where reading turns the printed carriage returns into line ends, and a disabled peer is printed without them |
| `DhcpFile.CyclesGainBlanks` | modules/network/dhcp-1/python/src/grpc_server/dhcp_config.py:85-187 | k cycles of printing a configuration and making it of the text add exactly k blanks to each host name; the first switches pools on and loses a disabled peer, the second brings an enabled peer by the name of `None`; nothing else changes |
| `DhcpFile.FileCyclesGainBlanks` | modules/network/dhcp-1/python/src/grpc_server/dhcp_config.py:70-100 | the same for k cycles of writing the file and reading it |
| `DhcpFile.NumbersAreClean` | modules/network/dhcp-1/python/src/grpc_server/dhcp_config.py:161-187 | numbers and dotted addresses are clean values for the round trip |
| `DhcpScanEnds.ScanEndsIff` | modules/network/dhcp-1/python/src/grpc_server/dhcp_config.py:111-123 | the host scan ends exactly when no `host` stands after the last closing brace |
| `Leases.DeleteLease` | modules/network/dhcp-1/python/src/grpc_server/dhcp_leases.py:86-92 | the loop is the reference `Loop`, including the exception when no `lease` stands before the address |
| `Leases.LoopPurges` | modules/network/dhcp-1/python/src/grpc_server/dhcp_leases.py:86-92 | on well-formed files the loop ends after at most as many turns as there are blocks and leaves the purged file |
| `Leases.PurgeKeeps` | modules/network/dhcp-1/python/src/grpc_server/dhcp_leases.py:86-92 | what is left are the blocks without the address, unchanged and in order |
| `Leases.DeleteLeaseCorrect` | modules/network/dhcp-1/python/src/grpc_server/dhcp_leases.py:86-92 | all together: the loop ends, the address is gone, exactly the blocks that do not contain its text remain |
| `Leases.AddressesKeptIff` | modules/network/dhcp-1/python/src/grpc_server/dhcp_leases.py:86-92 | exactly the leases of other addresses remain if and only if every block that contains the address is the lease of that address, its second word |
| `Leases.OtherLeaseGoes` | modules/network/dhcp-1/python/src/grpc_server/dhcp_leases.py:86-92 | a failing input: deleting the lease of 10.0.0.1 takes that of 10.0.0.12 |
| `Leases.TurnRaisesIff` | modules/network/dhcp-1/python/src/grpc_server/dhcp_leases.py:86-92 | a turn raises, with a ValueError, exactly if no `lease` stands before the first mention of the address |
| `Leases.CutDoubles` | modules/network/dhcp-1/python/src/grpc_server/dhcp_leases.py:87-92 | in a last block that is not closed a turn takes nothing out and repeats everything before the block |
| `Leases.BrokenOffEndsIff` | modules/network/dhcp-1/python/src/grpc_server/dhcp_leases.py:86-92 | on closed blocks followed by one that is not closed the loop ends exactly if that last block does not mention the address, and then purges the others; otherwise it runs for ever |
| `NetModules.NetworkOrchestrator.LoadNetworkModule` | framework/python/src/net_orc/network_orchestrator.py:456-475 | appends what `Load` says, the dependency first, and gives back the module only if it was not loaded; nothing is appended when it raises |
| `NetModules.NetworkOrchestrator.LoadNetworkModules` | framework/python/src/net_orc/network_orchestrator.py:440-454 | the pass over the directory listing leaves the list of `LoadAll` |
| `NetModules.NetworkOrchestrator.StartNetworkServices` | framework/python/src/net_orc/network_orchestrator.py:518-533 | starts the enabled modules with a container, in list order |
| `NetModules.AcyclicGrounded` | framework/python/src/net_orc/network_orchestrator.py:456-475 | without cycles or missing targets no dependency chain is longer than the number of modules |
| `NetModules.LoadKeeps` | framework/python/src/net_orc/network_orchestrator.py:456-475 | each load keeps what is there, adds only the chain of its directory, each once and after its dependency |
| `NetModules.PassKeeps` | framework/python/src/net_orc/network_orchestrator.py:440-475 | a pass keeps the order, adds only what listed directories bring in, and leaves every listed directory but the template known, unless it raises |
| `NetModules.LoadingEndsIff` | framework/python/src/net_orc/network_orchestrator.py:440-475 | whatever the names of the modules: loading ends without an exception, given depth enough, in every order of the directories exactly if the dependencies of every directory but the template exist and come to an end |
| `NetModules.ListedLoadingEndsIff` | framework/python/src/net_orc/network_orchestrator.py:440-475 | the same for one listing, provided that no module goes by the name of another listed directory |
| `NetModules.EndlessSkipped` | framework/python/src/net_orc/network_orchestrator.py:440-492 | without that proviso it fails: a directory whose dependency does not exist is skipped, and the pass succeeds, when a module before it goes by its name |
| `NetModules.LoadsEverythingOnce` | framework/python/src/net_orc/network_orchestrator.py:440-475 | acyclic, closed, no directory that can be left out: every directory is loaded exactly once and after its dependency, the template only if referenced, with no more nested calls than modules; a second pass changes nothing |
| `NetModules.EveryListingLoadsIff` | framework/python/src/net_orc/network_orchestrator.py:440-492 | for acyclic dependencies whose targets exist, every order of the listing loads all directories but the template exactly if there is none that nothing loadable depends on and that another module, loadable without it, goes by the name of |
| `NetModules.SomeListingLeavesOut` | framework/python/src/net_orc/network_orchestrator.py:440-492 | such a directory is left out by some order of the listing |
| `NetModules.ApartLeavesNothingOut` | framework/python/src/net_orc/network_orchestrator.py:487-492 | names that do not collide leave nothing out |
| `NetModules.CollisionLeavesOut` | framework/python/src/net_orc/network_orchestrator.py:487-492 | an example: of two directories the second is left out if the first goes by its name, and only in that order |
| `NetModules.LoadFails` | framework/python/src/net_orc/network_orchestrator.py:456-475 | a load fails only for a directory on the chain without a configuration, or a chain longer than the depth |
| `NetModules.StartedIff` | framework/python/src/net_orc/network_orchestrator.py:518-533 | started are the modules of the list with both switches on, and no other |
| `NetModules.StartedInOrder` | framework/python/src/net_orc/network_orchestrator.py:518-533 | each once, in the order of the list |
| `NetModules.AncestorBefore` | framework/python/src/net_orc/network_orchestrator.py:440-475 | every direct or indirect dependency stands before the module |
| `NetModules.DependenciesStartFirst` | framework/python/src/net_orc/network_orchestrator.py:518-533 | services start after everything startable that they depend on, directly or not |
| `Publishing.RunProtocol` | framework/python/src/core/session.py:56-89 | in every run of tracked calls: Idle is never sent, between resets nothing follows a terminal message, `pause_message` is set exactly when one has gone out, and, unless it is set, the last message shows the current status if that is not Idle |
| `Publishing.StepKeeps` | framework/python/src/core/session.py:178-202 | each tracked call, with the tracked calls inside it, keeps the protocol |
| `Publishing.SecondClearRedundant` | framework/python/src/core/session.py:178-181 | `start` publishes exactly Starting; its second clearing of `pause_message` has no effect |
| `Publishing.StopPublishes` | framework/python/src/core/session.py:192-202 | `stop` publishes Stopping three times, or nothing once a terminal message has gone out |
| `Publishing.SilentAfterEnd` | framework/python/src/core/session.py:63-78 | after a terminal message only `start` or `reset` makes the session publish again |
| `Session.TestrunSession.Tracked` | framework/python/src/core/session.py:63-78 | the tracker publishes and pauses as `Track` says |
| `Session.TestrunSession.SetStatus` | framework/python/src/core/session.py:434-435 | sets the status, then tracks |
| `Session.TestrunSession.Start` | framework/python/src/core/session.py:178-181 | resets, starts, and publishes Starting only |
| `Session.TestrunSession.Stop` | framework/python/src/core/session.py:192-194 | ends results in progress and publishes as `Stop` says |
| `Session.TestrunSession.Reset` | framework/python/src/core/session.py:878-891 | clears results, target and adapters, publishes nothing |
| `Session.TestrunSession.AddTestResult` | framework/python/src/core/session.py:464-519 | the loop over shared test objects updates those with the name, or appends the new object; all other objects stay as they are; an object that is in the list already meets itself, and changes as `AddStored` says |
| `Session.TestrunSession.Finish` | framework/python/src/core/session.py:196-202 | ends results in progress as `FinishAll`, and publishes as the tracker does |
| `TestResults.TestCase.UpdateFrom` | framework/python/src/core/session.py:476-515 | the in-place update of one entry is `Update` |
| `TestResults.EntriesByName` | framework/python/src/core/session.py:464-519 | over any sequence of results: one entry per name, in first-seen order, each the first result with the name updated by all later ones with it |
| `TestResults.EntryKeeps` | framework/python/src/core/session.py:476-515 | name, required result and expected behaviour of an entry are those of its first result |
| `TestResults.LastDescription` | framework/python/src/core/session.py:476-486 | an entry shows the last description that is not empty, and the details that came last |
| `TestResults.LastResult` | framework/python/src/core/session.py:493-515 | an entry that is not Informational shows the last result that was given |
| `TestResults.LastRecommendations` | framework/python/src/core/session.py:488-492 | an entry that is not Informational has the recommendations given last; an empty list clears them |
| `TestResults.StoredAgain` | framework/python/src/core/session.py:464-519 | adding a stored object once more changes that entry only; every field of what it becomes |
| `TestResults.FlattenText` | framework/python/src/core/session.py:481-485 | updated text details have no line break, and adding them again changes nothing |
| `TestResults.FlattenBlanks` | framework/python/src/core/session.py:481-485 | of a text without empty lines each line break becomes a blank and nothing else changes |
| `TestResults.EmptyLinesGo` | framework/python/src/core/session.py:481-485 | empty lines are dropped, at both ends and between other lines |
| `TestResults.ItemsReadBack` | framework/python/src/core/session.py:484-486 | texts of a list without blanks can be read back from what is stored |
| `TestResults.FlattenItemsIff` | framework/python/src/core/session.py:484-486 | updated list details are stable exactly when none of them has a line break |
| `TestResults.InformationalStays` | framework/python/src/core/session.py:488-513 | once an update has carried a result, an Informational entry shows the result of the last such update, Informational for Compliant and Non-Compliant; its optional recommendations are those of the last such update, and its recommendations are those given last from then on by a later update, none if there is no such update or the list was empty |
| `TestResults.InformationalRecommends` | framework/python/src/core/session.py:488-513 | so they need not be optional: a result, then an update with recommendations and no result, leaves an Informational entry with recommendations |
| `TestResults.UnjudgedShowsFirst` | framework/python/src/core/session.py:493-515 | until then it shows the result it came with |
| `TestResults.FinishEnds` | framework/python/src/core/session.py:196-202 | finishing turns In Progress into Error and changes nothing else; nothing is in progress then, and finishing again changes nothing |
| `TestResults.ShownWasGiven` | framework/python/src/core/session.py:196-202 | after a finished run a test shows Error only if Error or In Progress was given for it, Informational only if that, Compliant or Non-Compliant was, and any other result, such as Compliant, only if it was given for it |
| `Session.TestrunSession.DetectNetworkAdaptersChange` | framework/python/src/core/session.py:1072-1086 | keeps the new interfaces and gives the difference exactly when adapters have come or gone |
| `Adapters.DiffBrings` | framework/python/src/common/util.py:129-155 | a difference brings the old keys to the new ones; it is empty exactly if the keys are the same; it brings the values too exactly if adapters in both have kept theirs |
| `Adapters.GeneralSettingsStore.AddInterfaces` | modules/ui/src/app/pages/general-settings/general-settings.store.ts:254-261 | the loop adds all new entries to the object |
| `Adapters.GeneralSettingsStore.RemoveInterfaces` | modules/ui/src/app/pages/general-settings/general-settings.store.ts:263-270 | the loop deletes all removed keys from the object |
| `Adapters.GeneralSettingsStore.AdaptersUpdate` | modules/ui/src/app/pages/general-settings/general-settings.store.ts:229-244 | replays one message and updates both option lists |
| `Adapters.PollSync` | framework/python/src/core/session.py:1072-1086 | each poll keeps what will be shown equal, by key, to what the session keeps |
| `Adapters.PollStepIff` | framework/python/src/core/session.py:1072-1086 | with the addresses exactly if the keys are unchanged or no remaining adapter has a new address |
| `Adapters.ResetSyncIff` | framework/python/src/core/session.py:878-891 | a reset keeps the two in sync exactly if the adapters are those of the last poll |
| `Adapters.FetchSyncIff` | framework/python/src/api/api.py:200-214 | a fetch with messages on their way brings the two in sync exactly if it differs only in adapters those messages settle |
| `Adapters.RunSync` | modules/ui/src/app/pages/general-settings/general-settings.store.ts:229-244 | in every run, however messages are delayed, replaying what is on its way shows exactly the adapters of the session |
| `Adapters.RunInStep` | modules/ui/src/app/pages/general-settings/general-settings.store.ts:229-244 | with the addresses, in every run of polls and deliveries where no poll sees both an adapter come or go and another with a new address |
| `Adapters.FlickerStays` | framework/python/src/api/api.py:200-214 | an adapter present only during a fetch between two polls stays shown |
| `DeviceApi.Api.SaveDevice` | framework/python/src/api/api.py:528-598 | answers and changes as `Save`, the order of the checks included |
| `DeviceApi.Api.EditDevice` | framework/python/src/api/api.py:600-671 | answers and changes as `Edit`; only the edited object changes |
| `DeviceApi.Api.DeleteDevice` | framework/python/src/api/api.py:477-526 | answers and changes as `Delete` |
| `DeviceApi.Api.StartTestrun` | framework/python/src/api/api.py:248-330 | answers and changes as `StartRun`; the firmware is set before the last two checks |
| `DeviceApi.Api.ValidateDeviceJson` | framework/python/src/api/api.py:751-783 | accepts exactly the device bodies with all keys, names of at most 28 characters and no disallowed character |
| `DeviceApi.Api.CreateDevice` | framework/python/src/core/testrun.py:390-410 | makes the folder and appends the device, or nothing if the folder is there |
| `DeviceApi.Api.RemoveDevice` | framework/python/src/core/testrun.py:425-438 | removes the folder and the device, or nothing if the folder is missing |
| `Session.TestrunSession.GetDevice` | framework/python/src/core/session.py:416-420 | gives the first device with the MAC address in any case, or none |
| `Session.TestrunSession.GetDeviceByMakeAndModel` | framework/python/src/core/session.py:386-389 | gives a device of that make and model exactly if there is one |
| `Session.TestrunSession.RemoveDevice` | framework/python/src/core/session.py:422-423 | removes the first device that is, or equals field by field, the one given |
| `DeviceAnswers.SaveAnswers` | framework/python/src/api/api.py:528-598 | each answer to a save, exactly when it is given, and that a save that succeeds stores every field of the request in a new device at the end, with its folder, and nothing else |
| `DeviceAnswers.EditAnswers` | framework/python/src/api/api.py:600-671 | the same for an edit: every field of the request in that one device, which keeps its folder and firmware |
| `DeviceAnswers.EditRefused` | framework/python/src/api/api.py:600-671 | an edit without its parts is answered with 400, one for an unknown MAC address with 404, and neither changes anything |
| `DeviceAnswers.DeleteAnswers` | framework/python/src/api/api.py:477-526 | a delete of a known device is refused exactly while the device is in use |
| `DeviceAnswers.StartAnswers` | framework/python/src/api/api.py:248-330 | each answer to a start for a known device, exactly when it is given; the firmware is stored although one of the last two checks refuses the start |
| `DeviceAnswers.StartRefused` | framework/python/src/api/api.py:248-330 | a start without a device is answered with 400, one for an unknown MAC address with 404 |
| `DeviceStore.RemovesIt` | framework/python/src/common/device.py:27-50 | with distinct MAC addresses, removal by field-wise equality drops exactly the intended device |
| `DeviceStore.SaveSound` | framework/python/src/api/api.py:528-598 | a save keeps MAC addresses and folders distinct |
| `DeviceStore.EditSound` | framework/python/src/api/api.py:600-671 | an edit keeps MAC addresses and folders distinct, and never fails for want of a folder |
| `DeviceStore.DeleteSound` | framework/python/src/api/api.py:477-526 | a delete keeps MAC addresses and folders distinct, and never fails for want of a folder |
| `DeviceStore.RunSound` | framework/python/src/api/api.py:477-671 | after any sequence of requests MAC addresses are distinct in any case, folders are distinct, and each device has its folder |
| `DeviceStore.DeleteDropsIt` | framework/python/src/api/api.py:492-519 | a delete that succeeds takes out the device with that MAC address and no other, with its folder; 404 exactly if there is none |
| `DeviceStore.StepSparesTarget` | framework/python/src/api/api.py:504-516 | while a run has not finished no request takes its target out or changes anything of it but the firmware |
| `DeviceStore.TargetStays` | framework/python/src/api/api.py:477-671 | from a start to the end of the run, whatever requests come, the target stays with its MAC address and folder |
| `DeviceStore.StartBegins` | framework/python/src/api/api.py:248-330 | a start that succeeds begins such a run |
| `DeviceStore.FinishedTargetGoes` | framework/python/src/api/api.py:504-522 | once the run has finished its target can be deleted, and is then still the target of the session |
| `StatusStream.AppEffects.OnFetchSystemStatusSuccess` | modules/ui/src/app/store/effects.ts:186-207 | each handled status opens or closes the two subscriptions; of all subscriptions ever made to a topic at most one is open; an open one is kept |
| `StatusStream.AppEffects.OnFetchSystemConfigSuccess` | modules/ui/src/app/store/effects.ts:72-77 | the mode changes what the next live status opens, not what is open |
| `StatusStream.AppEffects.OnStopInterval` | modules/ui/src/app/store/effects.ts:173-184 | closes both subscriptions |
| `StatusStream.AppEffects.PullingSystemStatusData` | modules/ui/src/app/store/effects.ts:344-355 | subscribes only if no status subscription is open |
| `StatusStream.AppEffects.FetchInternetConnection` | modules/ui/src/app/store/effects.ts:357-375 | subscribes only if none is open and the mode is not single port |
| `StatusStream.AlwaysAttuned` | modules/ui/src/app/store/effects.ts:186-207 | after every handled status the status subscription is open exactly when that status is in progress or Stopping, and so is the internet subscription, unless it was handled in single port mode |
| `StatusStream.InternetFollows` | modules/ui/src/app/store/effects.ts:186-207 | after any moves, changes of the mode among them: a status handled in multi-port mode leaves the internet subscription open exactly if it is in progress or Stopping; in single port mode such a status opens none and keeps an open one; no other move touches it |
| `StatusStream.SinglePortOpensNone` | modules/ui/src/app/store/effects.ts:357-375 | while the mode is single port no moves open an internet subscription |
| `StatusStream.StaysClosed` | modules/ui/src/app/store/effects.ts:173-207 | once a terminal status has been handled both subscriptions stay closed, whatever the session publishes, until a live status comes from elsewhere |
| `StatusStream.PublishedInRun` | framework/python/src/core/session.py:63-78 | what a tracked call within a run publishes: the new status, once if terminal, nothing if paused |
| `StatusStream.FollowsToTheEnd` | modules/ui/src/app/store/effects.ts:344-355 | on the messages alone, however delayed: once all have arrived the interface shows the last status published, and is closed exactly if the terminal message has been sent |
| `StatusStream.BeginsToFollow` | modules/ui/src/app/store/effects.ts:148-159 | an interface told the current live status follows the run from there |
| `StatusStream.StartFollowsIff` | modules/ui/src/app/store/effects.ts:186-207 | an interface that follows a run follows the next from its start exactly if the terminal message of the first has not been sent |
| `StatusStream.NextRunFollowedIff` | modules/ui/src/app/store/effects.ts:186-207 | and then through all its calls and arrivals; if it had been sent, the subscription is closed once everything has arrived, whatever the next run publishes |
| `StatusStream.NextRunOpenIff` | modules/ui/src/app/store/effects.ts:186-207 | when all that was on its way at the start of the next run has arrived, the subscription is open exactly if that message had not been sent |
| `StatusStream.NextRunUnseen` | modules/ui/src/app/store/effects.ts:173-207 | with a terminal message on its way the next run goes by unseen, whatever the interface was following |
| `ReportJson.TestReport.FromJson` | framework/python/src/common/testreport.py:204-273 | fills the fields as `Read`, with the same exception for the first key missing or time malformed |
| `ReportJson.TestReport.ToJson` | framework/python/src/common/testreport.py:155-202 | writes the fields as `Write` |
| `ReportJson.RewriteNormal` | framework/python/src/common/testreport.py:155-273 | a file is read and written back exactly if it has the keys it must have, and then what is written is its normal form: defaults filled in, `additional_info` moved, details flattened, empty recommendations gone, MAC address null |
| `ReportJson.ReadFails` | framework/python/src/common/testreport.py:204-273 | what cannot be read raises a ValueError exactly if a time is malformed and nothing looked at before is missing, else a KeyError |
| `ReportJson.PlainDetailsIff` | framework/python/src/common/testreport.py:168-178 | only details given as a list can be written with a line break |
| `ReportJson.NormalForm` | framework/python/src/common/testreport.py:155-273 | what is written can be read again; writing that again gives the same file exactly if no list of details has a line break; from the second writing on nothing changes |

## Left out

- Docker, the virtual switch, packet capture, gRPC, HTTP and MQTT transport: calls into other programs; the
  channel is a queue without loss while a subscription is open.
- PDF and HTML rendering, Jinja and BeautifulSoup: only the integer formulas for heights are modelled.
- Clocks, time zones, expiry dates and certificates; report times are whole seconds.
- The thread that starts a run: resetting the session and setting its target are one step in `StartTestrun`.
- The dhcp-2 copies of the DHCP files, which differ in a logger name and a flag.
- Writing lease files: `delete_lease` computes contents that it does not write.
- RiskProfile: the status and expiry of a profile, which would only add easy members.
- The test-pack verdict, the discovery listener, selectors and style maps: easy members.
- `set_test_result_error` appends without a look at names; the results by name are those of
  `add_test_result`.
- Session.TestrunSession.Reset: the result, description, report and certificate fields are not kept.
- Session.TestrunSession.Finish: the finishing time is a clock value and is not kept.
- Session.TestrunSession.Tracked: a message is its status; the rest of the session JSON is not modelled.
- DeviceStore.RunSound: additional information and test modules are values without structure, the clock
  fields and reports of a device are not kept, and the merging of test modules in a start is not modelled.
- Device.LowerTwice: `lower` is that of ASCII.
- DeviceApi.Api.StartTestrun: the merging of test modules, and the thread that starts the run, are not modelled.
- DeviceApi.Api.RemoveDevice: the reports cleared before the folder goes are not kept.
- RiskProfile.AcceptedProfileRatesIff: the status is the one in the request; that `_valid` computes a status
  from the expiry date is not modelled.
- DeviceApi.Api.SaveDevice: request values have the types that the handlers assume.
- DhcpRoundTrip.RoundTrip: is about one subnet with one pool and a named peer, as the configuration files
  have them, and values free of keywords and delimiters.
- DhcpConfig.DHCPConfig.Make: the regular expressions for `subnet` and `pool` are modelled by the first and
  last match they can make; the text kept of each part is not.
- Ipv4.QuadRoundTrip: `int` reads digits only; signs, blanks and underscores count as errors.
- NetModules.LoadsEverythingOnce: of a module's configuration only names, dependency and the two switches
  are modelled; any other reason for which a configuration file cannot be read is not.
- Adapters.RunSync: resets and fetches that see other adapters than the session keeps are left to
  `ResetSyncIff` and `FetchSyncIff`.
- StatusStream.FollowsToTheEnd: the wait notification and the Cancelling shown by pages are only handled
  statuses like any other.
- ReportJson.TestReport.FromJson: the half-filled report after an exception is not described, because every
  caller drops it.
- RiskPages.GenerateReportPages: an answer that is an object, whose keys Python would iterate over, counts as
  one that cannot be iterated.
- ReportJson.NormalForm: values of details other than text, list and null are not modelled.
