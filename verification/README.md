# Verified models of the SPEAr1340 device tree

Dafny models of the software MAC layer of the rtl8192cu Wi-Fi driver, of the circular input reader and
gyroscope assembler of libsensors, and of the bit arithmetic of libaudio, with proofs about them.
`dafny verify dfyconfig.toml` checks the whole project with Dafny 4.11.

## How the models are built

Code that updates an object in place is a class whose fields are the fields of the C structure and whose
methods keep the branches and loops of the source, walks with deletion included. Beside each class stands
a value of the same state and a function for each operation; every method is proved to do to the object
what the function does to the value, and what the code promises is proved about the functions and about
runs of them. Concurrency and timers are events that come in any order.

| part | files | in one sentence |
|---|---|---|
| station manager of the access point | `MacAddress`, `Lists`, `ApState`, `ApPool`, `ApInvariant`, `ApCounters`, `ApHandlers`, `ApExpiry`, `ApTeardown`, `ApReset`, `ApRun`, `ApSafety`, `ApTimeline`, `ApSlots`, `ApWitness`, `Adapter` | 32 slots, a hash of chains, an AID table, two lists, six capability counters and an expiry tick, under one invariant over all events |
| elements of management frames | `InformationElement`, `Ieee80211`, `ParseElems`, `BssInfo`, `CollectBss` | printer, two cursor parsers, the driver's own beacon and what it reads out of received ones |
| security elements | `SecurityIe`, `SecRewrite`, `SecMeaning` | the WPA and RSN parsers, the in-place rewriting of an element, and what it does to the meaning |
| joining as a client | `ClientLink`, `ClientRun` | the state word and the link timer as a machine of five phases |
| scanning | `SiteSurvey`, `ScanRun` | a command and a timer that hand the scan to each other |
| command queue | `CmdQueue`, `CmdRun` | producers and one thread over a lock and a semaphore, interleaved step by step |
| scan results | `ScanCache`, `ScanCacheRun` | a free pool and a scanned queue of 64 entries with eviction and expiry |
| sensors | `InputEventReader`, `GyroSensor` | a doubled ring buffer that refines a FIFO, and a loop that refines a fold |
| EEPROM | `Eeprom` | the three-wire protocol against a model of the device |
| libaudio | `BitArithmetic` | rounding down to a power of two, and counting bits |

`ghost` history is kept where a claim is about the past: `log` of a station (what it has completed), `leak`
(capability bits left in the counters by a direct free), the beacons announced, the effects of a join, the
passes of a scan, the commands accepted. No operation reads it.

## What does not hold, and exactly when it does

- rtw_add_sta stores the AID it is given without looking at the table (ioctl_linux.c:5775). The invariant of the access
  point, unique AIDs included, lasts through a run if and only if each such AID is 0 or one whose slot already
  names the station (`ApRun.GoodThroughoutIff`; a run that breaks it: `ApWitness.SharedAidHappens`).
- A refused (re)association zeroes the AID of the station but does not clear its slot (rtw_mlme_ext.c:1572), and setting
  the beacon zeroes that of the broadcast station (rtw_mlme_ext.c:8116). A filled slot names a holder throughout a run
  without rtw_add_sta if and only if neither happens to a holder (`ApSlots.SlotsCurrentIff`, `ApWitness.StaleSlotHappens`).
- Two paths free stations and skip the counters: expiry on auth_list (rtw_mlme_ext.c:7824), and free_assoc_resources
  (rtw_mlme.c:1156), which a local disassociation of an access point with a beacon runs. A counter is exact if and only
  if no event of the run did that to a station with the bit (`ApSafety.CountersExactIff`, `ApWitness.LeakHappens`,
  `ApWitness.LeakWithoutTick`); no counter is ever too small.
- `free_all_stainfo` returns at once when one station is in use, whichever it is, and `stop_ap_mode` by itself can then leave
  a stranger behind (`ApTeardown.StopEffect`, `ApWitness.StrangerStays`). With a beacon set, free_assoc_resources runs first and
  nobody is left (`ApReset.LeaveEffect`). A deauthentication frame with a multicast
  transmitter address frees the broadcast station, so it is there after `free_all_stainfo` if and only if it was there before.
- get_ie reads the byte at its limit if and only if elements without the id end one byte before it (`Ieee80211.LookIff`).
- collect_bss_info copies SSID and rates without looking at the size of their arrays (`CollectBss.OutsideIff`), and
  restruct_sec_ie copies elements and suite lists without looking at the size of sec_ie
  (`SecRewrite.SecurityPriv.RestructSecIe`, `SecRewrite.CutFitsIff`).
- The rewriting of an RSN element zeroes its last two bytes. They are capability bits only if at least two
  bytes follow the suites; otherwise the selected suite itself is destroyed (`SecMeaning.RsnKeepsMeaning`).
- The 18 bytes of a PMKID are added to a length byte that may wrap, and are appended even when no RSN element
  was accepted (`SecMeaning.OutputIsOneIff`).
- The channel and the beacon period of a generated beacon are truncated to one and two bytes (`CollectBss.GenerateThenCollect`).
- A rejected association leaves the client in its phase with the timer cancelled (`ClientRun.StaysGuardedIff`).
- One failed allocation in the survey timer is enough to keep a scan from ever ending (`ScanRun.EndReachableIff`).
- A command whose code is above the size of the table is dequeued but neither handled nor freed (`CmdRun.HandledIff`). A code
  equal to the size passes the comparison of the source, which then reads the entry after the last.
- The bound on link-timer expiries is one less than two full rounds of authentication and one of association would suggest,
  because the round that gives up never reaches association (`ClientRun.JoinExpiries`, met by `ClientRun.BoundIsMet`).

Where names and comments of the source disagree with its code, the model follows the code: "the Pre-Authentication bit should be
zero" clears two whole bytes, and `asoc_sta_count` counts every station in use, associated or not.

## Model

| member | source | states |
|---|---|---|
| `MacAddress.WifiMacHash` | SPEAr1340/wifi/rtl8192cu/include/sta_info.h:235-250 | the hash of an address is always below NUM_STA, so no chain index is out of range |
| `ApPool.LookupRefinesMap` | SPEAr1340/wifi/rtl8192cu/core/rtw_sta_mgt.c:526-580 | get_stainfo returns a slot if and only if it is in use under the address with multicast folded to broadcast, and NULL if and only if no slot is |
| `ApPool.AllocKeepsPool` | SPEAr1340/wifi/rtl8192cu/core/rtw_sta_mgt.c:252-350 | allocation for an address not in use keeps the partition of the slots into free queue and hash chains, the count and the address map, hands out the head of the free queue and touches no other slot; with no free slot nothing changes |
| `ApPool.FreeEffect` | SPEAr1340/wifi/rtl8192cu/core/rtw_sta_mgt.c:354-481 | free_stainfo takes the station off its chain and both lists, appends it to the free queue, and changes no other station |
| `ApPool.FreeKeepsPool` | SPEAr1340/wifi/rtl8192cu/core/rtw_sta_mgt.c:354-481 | freeing keeps the partition, the count and the address map |
| `ApPool.FreeKeepsQueues` | SPEAr1340/wifi/rtl8192cu/core/rtw_sta_mgt.c:354-481 | freeing keeps auth_list and asoc_list duplicate-free, disjoint and inside the stations in use |
| `ApTeardown.CountIsInUse` | SPEAr1340/wifi/rtl8192cu/core/rtw_sta_mgt.c:252-350 | asoc_sta_count is the number of slots in use |
| `ApTeardown.FreeAllEffect` | SPEAr1340/wifi/rtl8192cu/core/rtw_sta_mgt.c:484-523 | free_all_stainfo, although it deletes while walking, leaves exactly the stations it should: the broadcast one, or everything when one station only is in use |
| `ApTeardown.FreeAllLeavesBroadcast` | SPEAr1340/wifi/rtl8192cu/core/rtw_sta_mgt.c:484-523 | exactly the broadcast station is left if and only if it was in use before |
| `ApTeardown.FreshIsQuiet` | SPEAr1340/wifi/rtl8192cu/core/rtw_sta_mgt.c:88-149 | the state built at initialisation satisfies the invariant with every slot free |
| `ApCounters.NewHtOpModeIsFunctional` | SPEAr1340/wifi/rtl8192cu/core/rtw_mlme_ext.c:8644-8713 | without the early return the incremental update lands on the mode that section 7.3.2.57 of IEEE Std 802.11n-2009 derives from who is in the BSS, and counts a change if and only if the mode differs |
| `ApCounters.UpdateCapsEffect` | SPEAr1340/wifi/rtl8192cu/core/rtw_mlme_ext.c:8718-8901 | bss_cap_update moves every counter exactly as the station's bits move, sends an ERP beacon update if and only if the non-ERP count reaches or leaves zero, and leaves ht_op_mode the function of the counters |
| `ApCounters.ClearCapsEffect` | SPEAr1340/wifi/rtl8192cu/core/rtw_mlme_ext.c:8903-8960 | the first half of ap_free_sta takes back every bit of the station from the counters, under the same two laws |
| `ApCounters.StationUpdateKeepsCounted` | SPEAr1340/wifi/rtl8192cu/core/rtw_mlme_ext.c:8718-8901 | if a handler moves a station's bits and the counters together, each counter stays the number of in-use stations with its bit plus what direct frees left behind |
| `ApCounters.FreeKeepsCounted` | SPEAr1340/wifi/rtl8192cu/core/rtw_sta_mgt.c:354-481 | a direct free_stainfo leaves the station's bits behind in the counters, and that is all that makes a counter too large |
| `ApCounters.AllocKeepsCounted` | SPEAr1340/wifi/rtl8192cu/core/rtw_sta_mgt.c:252-350 | a new station carries no bit, so allocation keeps the counters exact |
| `ApInvariant.StationUpdateKeepsInv` | SPEAr1340/wifi/rtl8192cu/core/rtw_mlme_ext.c:1492-1516 | a handler that changes one station and fills only empty AID slots keeps the whole invariant: pool, lists, AID ownership and history |
| `ApInvariant.FreeKeepsInv` | SPEAr1340/wifi/rtl8192cu/core/rtw_sta_mgt.c:354-481 | freeing keeps AID ownership although it clears only the slot the station still names |
| `ApHandlers.OnAuthKeepsGood` | SPEAr1340/wifi/rtl8192cu/core/rtw_mlme_ext.c:742-990 | every authentication frame, accepted or refused, keeps the invariant over pool, lists, AIDs, counters and histories |
| `ApHandlers.OnAssocReqKeepsGood` | SPEAr1340/wifi/rtl8192cu/core/rtw_mlme_ext.c:1081-1584 | every (re)association request keeps it, including the refusal that zeroes aid without clearing the slot |
| `ApHandlers.BssCapUpdateKeepsGood` | SPEAr1340/wifi/rtl8192cu/core/rtw_mlme_ext.c:8718-8901 | bss_cap_update keeps it |
| `ApHandlers.StaInfoUpdateKeepsGood` | SPEAr1340/wifi/rtl8192cu/core/rtw_mlme_ext.c:8208-8290 | update_sta_info_apmode keeps it, with mac_id set to aid + 1 |
| `ApHandlers.ApFreeKeepsGood` | SPEAr1340/wifi/rtl8192cu/core/rtw_mlme_ext.c:8903-8984 | ap_free_sta keeps it and leaves nothing behind in the counters |
| `ApExpiry.TickEffect` | SPEAr1340/wifi/rtl8192cu/core/rtw_mlme_ext.c:7795-7882 | one tick of expire_timeout_chk frees exactly the listed stations whose countdown reaches zero, visits each of the others once despite deletion during the walks, and leaks exactly the bits of the stations expired on auth_list |
| `ApTeardown.FlushEffect` | SPEAr1340/wifi/rtl8192cu/core/rtw_mlme_ext.c:8986-9018 | rtw_sta_flush frees exactly the stations on asoc_list |
| `ApTeardown.StartIsGood` | SPEAr1340/wifi/rtl8192cu/core/rtw_mlme_ext.c:9058-9094 | start_ap_mode on a quiet pool establishes the invariant |
| `ApTeardown.StopEffect` | SPEAr1340/wifi/rtl8192cu/core/rtw_mlme_ext.c:9096-9163 | stop_ap_mode leaves exactly the broadcast station, and a pool from which start_ap_mode can follow, if and only if the flush did not leave one single station that is not the broadcast station |
| `ApRun.StepKeepsGoodIff` | SPEAr1340/wifi/rtl8192cu/core/rtw_mlme_ext.c:1676-1718 | every frame, timer and user request of the event list, a local disassociation by free_assoc_resources included, keeps the invariant if and only if it is not an rtw_add_sta with an AID whose slot the station does not own |
| `ApReset.FreedEffect` | SPEAr1340/wifi/rtl8192cu/core/rtw_mlme.c:1156-1205 | free_assoc_resources frees, directly, exactly the stations that are not the one survivor: neither own nor broadcast entry, and nobody but the own entry beside it |
| `ApReset.FreeAssocKeepsGood` | SPEAr1340/wifi/rtl8192cu/core/rtw_mlme.c:1156-1205 | it keeps the invariant, no leak gets smaller, and the leak of a capability grows if and only if a station with the bit does not survive |
| `ApReset.FreeAssocEffect` | SPEAr1340/wifi/rtl8192cu/core/rtw_mlme.c:1156-1205 | afterwards the broadcast station is new and listed nowhere, and whoever else is in use is the survivor as it was |
| `ApReset.LeaveEffect` | SPEAr1340/wifi/rtl8192cu/core/rtw_ioctl_set.c:560-613 | leaving access-point mode with a beacon set always ends with the broadcast station alone and a pool from which start_ap_mode can follow, since free_assoc_resources runs before stop_ap_mode |
| `ApHandlers.SetBeaconKeepsGood` | SPEAr1340/wifi/rtl8192cu/os_dep/linux/ioctl_linux.c:5306-5681 | what rtw_set_beacon does to the stations, the broadcast record started anew and the own entry, keeps the invariant |
| `ApRun.NewSettingsIff` | SPEAr1340/wifi/rtl8192cu/os_dep/linux/ioctl_linux.c:5306-5681 | after a beacon that changes the settings the invariant holds under the new ones if and only if ht_op_mode is already the one they ask for |
| `ApHandlers.AddStationIff` | SPEAr1340/wifi/rtl8192cu/os_dep/linux/ioctl_linux.c:5732-5817 | the AID that rtw_add_sta stores unchecked keeps the invariant if and only if it is 0 or one whose slot names the station |
| `ApRun.GoodThroughoutIff` | SPEAr1340/wifi/rtl8192cu/os_dep/linux/ioctl_linux.c:5732-5817 | over any run of events the invariant holds after every event if and only if each rtw_add_sta of the run gives a station no AID or one whose slot it owns |
| `ApRun.TruthfulWithoutAddSta` | SPEAr1340/wifi/rtl8192cu/core/rtw_mlme_ext.c:1676-1718 | a run without rtw_add_sta always meets that condition |
| `ApSafety.AddStationSharesAid` | SPEAr1340/wifi/rtl8192cu/os_dep/linux/ioctl_linux.c:5759-5817 | with the AID of another station rtw_add_sta makes the two share AID and MAC id |
| `ApSafety.AddStationSharesCamEntry` | SPEAr1340/wifi/rtl8192cu/core/rtw_mlme_ext.c:7416-7428 | and their pairwise keys then go to one CAM entry |
| `ApSafety.RunIsSafe` | SPEAr1340/wifi/rtl8192cu/core/rtw_mlme_ext.c:9058-9094 | after any run from start_ap_mode whose rtw_add_sta requests meet the condition above: the slots are partitioned and counted, no two stations share an AID, every station on asoc_list completed an exchange and then an accepted association and is not on auth_list, no counter is below the stations it counts, ht_op_mode is the function of the counters, and the number of ERP updates is odd if and only if the non-ERP counter is above zero |
| `ApSafety.ErpFollowsStations` | SPEAr1340/wifi/rtl8192cu/core/rtw_mlme_ext.c:8718-8901 | on runs on which no non-ERP station expires on auth_list or is freed by a local disassociation the number of ERP updates is odd if and only if a non-ERP station is in use |
| `ApSafety.AidsAreUnique` | SPEAr1340/wifi/rtl8192cu/core/rtw_mlme_ext.c:1492-1516 | two stations in use never share an AID above 0, nor a MAC id above 1 |
| `ApSafety.CamEntriesAreDistinct` | SPEAr1340/wifi/rtl8192cu/core/rtw_mlme_ext.c:7396-7450 | a pairwise key never goes to a default-key entry, and two addresses share an entry only if they are one station or it is entry 4, that of stations without an AID |
| `ApSafety.CamEntryFollowsAid` | SPEAr1340/wifi/rtl8192cu/core/rtw_mlme_ext.c:7416-7428 | once its record is updated a station with an AID has the CAM entry aid + 4, and AIDs above 27 have none |
| `ApSafety.CountersCover` | SPEAr1340/wifi/rtl8192cu/core/rtw_mlme_ext.c:8903-8960 | no counter is below the number of in-use stations with its bit, hence no decrement underflows; equality if and only if nothing has leaked |
| `ApSafety.CountersExactIff` | SPEAr1340/wifi/rtl8192cu/core/rtw_mlme_ext.c:7795-7882 | after a run from start_ap_mode a counter is exact if and only if no tick of the run expired a station with that bit on auth_list and no local disassociation freed one |
| `ApTimeline.SilentStationExpires` | SPEAr1340/wifi/rtl8192cu/core/rtw_mlme_ext.c:7837-7882 | an associated, awake station silent since its last alive tick is gone at the (expire_to - 1)-th following tick and present at every earlier one, over any interleaving with events of other stations |
| `ApTimeline.AliveSurvives` | SPEAr1340/wifi/rtl8192cu/core/rtw_mlme_ext.c:7837-7882 | an associated station found alive at a tick is not freed at it |
| `ApTimeline.AuthStationExpires` | SPEAr1340/wifi/rtl8192cu/core/rtw_mlme_ext.c:7808-7835 | a station on auth_list that does nothing is gone exactly when its countdown runs out |
| `ApSlots.AssocAids` | SPEAr1340/wifi/rtl8192cu/core/rtw_mlme_ext.c:1492-1516 | an accepted association gives the station its old AID or the least free one not above max_num_sta, and no other slot of the table changes; a refused one leaves the table as it is |
| `ApSlots.SlotsStayCurrentIff` | SPEAr1340/wifi/rtl8192cu/core/rtw_mlme_ext.c:1545-1580 | every filled slot still names a station that holds its AID after a request if and only if the request did not refuse a station that held one |
| `ApSlots.StepSlots` | SPEAr1340/wifi/rtl8192cu/core/rtw_mlme_ext.c:1545-1580 | every event but rtw_add_sta keeps each stale slot as it is, and makes none unless it is a request that refuses a holder, or a beacon set while the broadcast station has an AID |
| `ApSlots.SlotsCurrentIff` | SPEAr1340/wifi/rtl8192cu/core/rtw_mlme_ext.c:1545-1580 | after a run without rtw_add_sta no slot is stale if and only if no event of the run took the AID from a holder in one of these two ways |
| `ApSlots.StaleIsNeverOffered` | SPEAr1340/wifi/rtl8192cu/core/rtw_mlme_ext.c:1499-1508 | through such a run a stale slot keeps the station it names, is never the least free one, and no station in use has its AID |
| `ApWitness.SharedAidHappens` | SPEAr1340/wifi/rtl8192cu/os_dep/linux/ioctl_linux.c:5732-5817 | a run from a fresh start after which rtw_add_sta gives a second station AID 1 and the invariant is broken |
| `ApWitness.StaleSlotHappens` | SPEAr1340/wifi/rtl8192cu/core/rtw_mlme_ext.c:1545-1580 | a run from a fresh start that ends with a stale slot: associate, authenticate again, ask again and be refused |
| `ApWitness.LeakHappens` | SPEAr1340/wifi/rtl8192cu/core/rtw_mlme_ext.c:7808-7835 | a run from a fresh start that ends with a counter too large: associate as non-ERP, authenticate again, and assoc_to ticks |
| `ApWitness.LeakWithoutTick` | SPEAr1340/wifi/rtl8192cu/core/rtw_ioctl_set.c:637-657 | a run from a fresh start without a tick that ends with nobody but the broadcast station in use and a non-ERP station still counted: associate as non-ERP, a second station, set the beacon, disassociate locally |
| `ApWitness.StrangerStays` | SPEAr1340/wifi/rtl8192cu/core/rtw_mlme_ext.c:9096-9163 | a run from a fresh start with the broadcast station after which stop_ap_mode leaves a stranger: removal of a group address, one authentication |
| `AdapterModule.Adapter.constructor` | SPEAr1340/wifi/rtl8192cu/core/rtw_sta_mgt.c:88-149 | builds the arrays and lists in the initial state |
| `AdapterModule.Adapter.AllocStaInfo` | SPEAr1340/wifi/rtl8192cu/core/rtw_sta_mgt.c:252-350 | does to the arrays what Alloc does to the state |
| `AdapterModule.Adapter.FreeStaInfo` | SPEAr1340/wifi/rtl8192cu/core/rtw_sta_mgt.c:354-481 | does what FreeSta does |
| `AdapterModule.Adapter.GetStaInfo` | SPEAr1340/wifi/rtl8192cu/core/rtw_sta_mgt.c:526-580 | the chain walk returns what Lookup returns |
| `AdapterModule.Adapter.HtOperationUpdate` | SPEAr1340/wifi/rtl8192cu/core/rtw_mlme_ext.c:8644-8713 | the in-place update of the mode equals NewHtOpMode |
| `AdapterModule.Adapter.BssCapUpdate` | SPEAr1340/wifi/rtl8192cu/core/rtw_mlme_ext.c:8718-8901 | does what the specification of bss_cap_update does to bits, counters and beacons |
| `AdapterModule.Adapter.ApFreeSta` | SPEAr1340/wifi/rtl8192cu/core/rtw_mlme_ext.c:8903-8984 | does what the specification of ap_free_sta does |
| `AdapterModule.Adapter.OnAuth` | SPEAr1340/wifi/rtl8192cu/core/rtw_mlme_ext.c:742-990 | answers and changes the state as the specification of OnAuth |
| `AdapterModule.Adapter.FirstFreeAid` | SPEAr1340/wifi/rtl8192cu/core/rtw_mlme_ext.c:1499-1508 | the loop over sta_aid finds the least free AID |
| `AdapterModule.Adapter.OnAssocReq` | SPEAr1340/wifi/rtl8192cu/core/rtw_mlme_ext.c:1081-1584 | answers and changes the state as the specification of OnAssocReq |
| `AdapterModule.Adapter.StaAssocDone` | SPEAr1340/wifi/rtl8192cu/core/rtw_mlme.c:1870-1897 | the AP branch of stassoc_event_callback updates the station the address names, if there is one |
| `AdapterModule.Adapter.ExpireTimeoutChk` | SPEAr1340/wifi/rtl8192cu/core/rtw_mlme_ext.c:7795-7882 | the two walks with deletion equal one Tick, and the result satisfies the invariant |
| `AdapterModule.Adapter.StaFlush` | SPEAr1340/wifi/rtl8192cu/core/rtw_mlme_ext.c:8986-9018 | the walk with deletion equals FlushAsoc |
| `AdapterModule.Adapter.FreeAllStaInfo` | SPEAr1340/wifi/rtl8192cu/core/rtw_sta_mgt.c:484-523 | the walks over all chains equal FreeAll |
| `AdapterModule.Adapter.StartApMode` | SPEAr1340/wifi/rtl8192cu/core/rtw_mlme_ext.c:9058-9094 | does what StartAp does |
| `AdapterModule.Adapter.AddSta` | SPEAr1340/wifi/rtl8192cu/os_dep/linux/ioctl_linux.c:5732-5817 | stores what it is given as specified, and refuses the broadcast address and unknown stations |
| `AdapterModule.Adapter.SetBeacon` | SPEAr1340/wifi/rtl8192cu/os_dep/linux/ioctl_linux.c:5306-5681 | does to the stations what the specification of rtw_set_beacon does, and fails exactly for want of a slot |
| `AdapterModule.Adapter.FreeAssocResources` | SPEAr1340/wifi/rtl8192cu/core/rtw_mlme.c:1156-1205 | does what FreeAssoc does |
| `AdapterModule.Adapter.LeaveApMode` | SPEAr1340/wifi/rtl8192cu/core/rtw_ioctl_set.c:560-613 | free_assoc_resources when linked, then stop_ap_mode; a linked access point always leaves a quiet pool with the broadcast station alone |
| `AdapterModule.Adapter.InitBcmcStaInfo` | SPEAr1340/wifi/rtl8192cu/core/rtw_sta_mgt.c:582-621 | allocates a new broadcast station with MAC id 1, whether or not there is one |
| `AdapterModule.Adapter.StopApMode` | SPEAr1340/wifi/rtl8192cu/core/rtw_mlme_ext.c:9096-9163 | flushes, frees and re-creates the broadcast station as specified |
| `InformationElement.ParsePrint` | SPEAr1340/wifi/rtl8192cu/core/ieee80211.c:127-153 | a printed list of elements parses back to that list (element format: section 7.3.2 of IEEE Std 802.11-2007) |
| `InformationElement.PrintParse` | SPEAr1340/wifi/rtl8192cu/core/ieee80211.c:774-899 | bytes that are tiled by elements are the print of what they parse to, so the tiling is unique |
| `Ieee80211.SetIe` | SPEAr1340/wifi/rtl8192cu/core/ieee80211.c:127-153 | writes exactly id, length byte and body at the pointer, changes nothing else, and advances pointer and length by what it wrote |
| `Ieee80211.SetIePrints` | SPEAr1340/wifi/rtl8192cu/core/ieee80211.c:127-153 | what set_ie writes is the one element it was given if and only if the length fits its byte |
| `Ieee80211.GetIe` | SPEAr1340/wifi/rtl8192cu/core/ieee80211.c:155-186 | on any bytes: where the cursor loop stops, the length it stores, and whether it read the byte at its limit |
| `Ieee80211.LookIff` | SPEAr1340/wifi/rtl8192cu/core/ieee80211.c:155-186 | on any bytes: the position returned is the one before the limit at which the bytes so far are elements without the id and the byte is the id; the loop reads past its limit if and only if elements without the id end one byte before the limit, and outside its buffer if the limit is then its end |
| `Ieee80211.LookTiled` | SPEAr1340/wifi/rtl8192cu/core/ieee80211.c:155-186 | over an exact tiling: the first element with the id, or NULL if and only if there is none, and no read past the limit |
| `ParseElems.ParseElems` | SPEAr1340/wifi/rtl8192cu/core/ieee80211.c:774-899 | for every byte string: ParseFailed if and only if it is not tiled by elements; otherwise each field points at the last element filed under it, and ParseOK if and only if every element is known |
| `ParseElems.FieldsInside` | SPEAr1340/wifi/rtl8192cu/core/ieee80211.c:774-899 | every pointer and length returned lies inside the string and covers the body of the element filed |
| `ParseElems.AgreesWithGetIe` | SPEAr1340/wifi/rtl8192cu/core/ieee80211.c:155-186 | on an id that occurs once get_ie and the parser point at the same element |
| `BssInfo.RatesetLen` | SPEAr1340/wifi/rtl8192cu/core/ieee80211.c:219-235 | the length is that of the leading non-zero bytes, 13 at most |
| `BssInfo.GenerateIe` | SPEAr1340/wifi/rtl8192cu/core/ieee80211.c:237-328 | the returned size is the number of bytes written, which are the fixed fields and the print of the elements; the timestamp and everything past the size are untouched |
| `CollectBss.CollectBssInfo` | SPEAr1340/wifi/rtl8192cu/core/rtw_mlme_ext.c:5792-5936 | for every frame: refused, or outside its arrays, or the record made of the first element of each id, with the fallbacks for the channel |
| `CollectBss.CollectRates` | SPEAr1340/wifi/rtl8192cu/core/rtw_mlme_ext.c:5850-5870 | the two rate elements are joined in a zeroed array of 16, or a copy leaves it |
| `CollectBss.OutsideIff` | SPEAr1340/wifi/rtl8192cu/core/rtw_mlme_ext.c:5834-5910 | for frames made of elements: refused if and only if there is no SSID; outside the arrays if and only if there is one and the SSID exceeds 32 bytes, the rates together exceed 16, or the channel is to be read from an empty element at the very end |
| `CollectBss.CollectFrame` | SPEAr1340/wifi/rtl8192cu/core/rtw_mlme_ext.c:5792-5936 | for every frame of elements with an SSID and no access outside, the whole record: first SSID, joined and padded rates, channel from the DS set, else the HT element, else the current one, period, addresses and privacy |
| `CollectBss.GenerateThenCollect` | SPEAr1340/wifi/rtl8192cu/core/rtw_mlme_ext.c:5835-5929 | reading back a generated beacon gives the SSID, the rejoined rates and the privacy bit for every configuration, the channel if and only if it is below 256, and the beacon period if and only if it is below 65536 |
| `CollectBss.RatesRejoin` | SPEAr1340/wifi/rtl8192cu/core/ieee80211.c:284-322 | splitting the rates at 8 over two elements loses none of them |
| `CollectBss.GeneratedFits` | SPEAr1340/wifi/rtl8192cu/core/ieee80211.c:237-328 | a generated beacon body is within the limits that collect_bss_info puts on its input |
| `SecurityIe.ParseSecIe` | SPEAr1340/wifi/rtl8192cu/core/ieee80211.c:424-564 | parse_wpa_ie and parse_wpa2_ie: success, group cipher and the union of the pairwise ciphers, for any length and any content |
| `SecurityIe.SecParses` | SPEAr1340/wifi/rtl8192cu/core/ieee80211.c:424-564 | a well-formed WPA or RSN element (section 7.3.2.25 of IEEE Std 802.11-2007) is accepted with its group cipher and exactly the ciphers it lists |
| `SecRewrite.FindSec` | SPEAr1340/wifi/rtl8192cu/core/rtw_mlme.c:2682-2714 | on any bytes: the search stops at the first position on its way that passes the test, at the end, or at a read outside in_ie |
| `SecRewrite.LoadingTiled` | SPEAr1340/wifi/rtl8192cu/core/rtw_mlme.c:2682-2714 | over elements it hands over the first of the required kind, with the WPA OUI where one is required, unless that is too long for sec_ie |
| `SecRewrite.AscendingMovesDown` | SPEAr1340/wifi/rtl8192cu/core/rtw_mlme.c:2790-2790 | a byte copy from the lowest address moves an overlapping range to lower addresses intact |
| `SecRewrite.CutFitsIff` | SPEAr1340/wifi/rtl8192cu/core/rtw_mlme.c:2781-2792 | with a count of at least one the copy stays inside sec_ie if and only if the suite list lies inside the element and the element inside sec_ie |
| `SecRewrite.RewriteSec` | SPEAr1340/wifi/rtl8192cu/core/rtw_mlme.c:2716-2872 | the two rewriting blocks leave sec_ie, or accept, rewrite in place and set the group privacy as specified; for every count, zero included |
| `SecRewrite.SecurityPriv.IsInPmkidList` | SPEAr1340/wifi/rtl8192cu/core/rtw_mlme.c:2591-2622 | the first used entry with the BSSID, or -1 if and only if there is none |
| `SecRewrite.SecurityPriv.RestructSecIe` | SPEAr1340/wifi/rtl8192cu/core/rtw_mlme.c:2624-2941 | for any bytes: an access outside in_ie or sec_ie if and only if the search, the copy or the rewriting makes one; otherwise the bytes of out_ie up to the returned length are the fixed fields followed by the WPS element, or the accepted and rewritten element, or nothing, and then the PMKID; the rest is untouched and the WPS phase is over |
| `SecMeaning.KeptIs` | SPEAr1340/wifi/rtl8192cu/core/rtw_mlme.c:2716-2872 | a well-formed element is accepted unless its only suite is not the selected one; what is kept is the same element, shorter by 4 * (count - 1), with the selected suite in place of the list |
| `SecMeaning.WpaKeepsMeaning` | SPEAr1340/wifi/rtl8192cu/core/rtw_mlme.c:2682-2909 | an accepted WPA element goes out as one element that parse_wpa_ie accepts with the group cipher it had and exactly the selected cipher |
| `SecMeaning.RsnKeepsMeaning` | SPEAr1340/wifi/rtl8192cu/core/rtw_mlme.c:2682-2941 | an accepted RSN element goes out as bytes that parse_wpa2_ie accepts with the group cipher it had; they list exactly the selected cipher if and only if two bytes follow the suites, and are one element if and only if 18 more bytes still fit the length byte |
| `SecMeaning.RsnKeepsSuffix` | SPEAr1340/wifi/rtl8192cu/core/rtw_mlme.c:2893-2935 | the bytes after the suites are kept, but for the last two, which are zeroed; the PMKID count and PMKID follow |
| `SecMeaning.OutputIsOneIff` | SPEAr1340/wifi/rtl8192cu/core/rtw_mlme.c:2874-2941 | over all elements found, accepted or not, with and without a PMKID, in terms of what was found: what follows the fixed fields is nothing or one element, which parses, if and only if this is WPA, or nothing is accepted and there is no PMKID, or the size left once the suite list is cut is not three and is below 240 if a PMKID follows |
| `ClientLink.MlmeExtInfo.constructor` | SPEAr1340/wifi/rtl8192cu/core/rtw_mlme_ext.c:186-203 | the link starts idle with open-system authentication |
| `ClientLink.MlmeExtInfo.StartClntAuth` | SPEAr1340/wifi/rtl8192cu/core/rtw_mlme_ext.c:6079-6098 | the bit operations turn the wait-beacon word into the authenticating one, reset both counts and arm the timer |
| `ClientLink.MlmeExtInfo.StartClntAssoc` | SPEAr1340/wifi/rtl8192cu/core/rtw_mlme_ext.c:6101-6114 | the bit operations turn the authenticating word into the associating one and arm the timer |
| `ClientLink.MlmeExtInfo.OnBeaconFrame` | SPEAr1340/wifi/rtl8192cu/core/rtw_mlme_ext.c:650-681 | one step of the phase machine; the state word stays that of a phase |
| `ClientLink.MlmeExtInfo.OnAuthClient` | SPEAr1340/wifi/rtl8192cu/core/rtw_mlme_ext.c:992-1079 | one step, with every refusal of sequence number, status and missing challenge |
| `ClientLink.MlmeExtInfo.OnAssocRspFrame` | SPEAr1340/wifi/rtl8192cu/core/rtw_mlme_ext.c:1586-1674 | one step: linked, or rejected with the state kept and the timer cancelled |
| `ClientLink.MlmeExtInfo.ReceiveDisconnect` | SPEAr1340/wifi/rtl8192cu/core/rtw_mlme_ext.c:6116-6140 | reports by phase and changes no state |
| `ClientLink.MlmeExtInfo.LinkTimerHdl` | SPEAr1340/wifi/rtl8192cu/core/rtw_mlme_ext.c:6829-6880 | one step: retry, switch to shared key, or give up |
| `ClientLink.MlmeExtInfo.JoinCmd` | SPEAr1340/wifi/rtl8192cu/core/rtw_mlme_ext.c:7075-7242 | one step for a network that is not an IBSS |
| `ClientLink.MlmeExtInfo.DisconnectHdl` | SPEAr1340/wifi/rtl8192cu/core/rtw_mlme_ext.c:7244-7287 | one step to idle |
| `ClientLink.MlmeExtInfo.StaDelEventCallback` | SPEAr1340/wifi/rtl8192cu/core/rtw_mlme_ext.c:6609-6638 | to idle with the timer cancelled for a linked client or when no ad-hoc entry is taken, as always in infrastructure mode |
| `ClientLink.MlmeExtInfo.SetAuthHdl` | SPEAr1340/wifi/rtl8192cu/core/rtw_mlme_ext.c:7364-7376 | sets the algorithm for the modes 0 to 3 only |
| `ClientLink.PhaseOf` | SPEAr1340/wifi/rtl8192cu/core/rtw_mlme_ext.c:6079-6114 | the state words of the five phases are distinct: a word determines its phase |
| `ClientRun.LinkedThroughAllPhases` | SPEAr1340/wifi/rtl8192cu/core/rtw_mlme_ext.c:650-681 | under any interleaving a linked run ended with a join, a beacon, an accepted authentication and an accepted association, in that order, each phase holding from one to the next |
| `ClientRun.JoinExpiries` | SPEAr1340/wifi/rtl8192cu/core/rtw_mlme_ext.c:6829-6880 | one join sees at most 2 * (REAUTH_LIMIT + 1) + REASSOC_LIMIT expiries of the link timer while the algorithm is not set from outside, and fewer unless it is automatic |
| `ClientRun.BoundIsMet` | SPEAr1340/wifi/rtl8192cu/core/rtw_mlme_ext.c:6829-6880 | that bound is met by a run |
| `ClientRun.RunIsSound` | SPEAr1340/wifi/rtl8192cu/core/rtw_mlme_ext.c:6829-6880 | in every run the timer is armed in the linking phases only and the retry counts are within their limits |
| `ClientRun.StaysGuardedIff` | SPEAr1340/wifi/rtl8192cu/core/rtw_mlme_ext.c:1604-1618 | an event leaves a join without its timer if and only if it is a rejected association or a join command that cannot be carried out |
| `ClientRun.SilenceEndsJoin` | SPEAr1340/wifi/rtl8192cu/core/rtw_mlme_ext.c:6829-6880 | a join with its timer armed, left to itself, is given up after at most the bounded number of expiries |
| `SiteSurvey.MlmeExt.SwAntDivBeforeLink` | SPEAr1340/wifi/rtl8192cu/hal/rtl8192c/rtl8192c_dm.c:3550-3604 | asks for another pass at most every other time, and never when linked |
| `SiteSurvey.MlmeExt.SiteSurvey` | SPEAr1340/wifi/rtl8192cu/core/rtw_mlme_ext.c:5656-5783 | visits the channel at the index, or ends the pass: another antenna, or the end of the scan |
| `SiteSurvey.MlmeExt.SiteSurveyCmd` | SPEAr1340/wifi/rtl8192cu/core/rtw_mlme_ext.c:7289-7362 | one step of the scan for a survey command |
| `SiteSurvey.MlmeExt.SurveyTimerHdl` | SPEAr1340/wifi/rtl8192cu/core/rtw_mlme_ext.c:6792-6827 | one step of the scan for the timer, with or without memory |
| `ScanRun.ScanIsComplete` | SPEAr1340/wifi/rtl8192cu/core/rtw_mlme_ext.c:7289-7362 | for every channel set with a terminator and any order of timer and command: at most one of them is outstanding; none is if and only if the scan is over, with one or two complete passes in channel order, transmission resumed and one report; and it is over after at most 4 * channels + 5 effective events |
| `ScanRun.StepKeeps` | SPEAr1340/wifi/rtl8192cu/core/rtw_mlme_ext.c:5718-5783 | each effective event lowers the measure (antenna switches left, then channels left, then the hand-over) |
| `ScanRun.ScanProgresses` | SPEAr1340/wifi/rtl8192cu/core/rtw_mlme_ext.c:6803-6821 | a scan that is not over can always go on |
| `ScanRun.EndReachableIff` | SPEAr1340/wifi/rtl8192cu/core/rtw_mlme_ext.c:6803-6821 | after any run of a scan its end can still be reached if and only if no allocation of the timer has failed |
| `ScanRun.FailedAllocationStalls` | SPEAr1340/wifi/rtl8192cu/core/rtw_mlme_ext.c:6808-6817 | one failed allocation in the timer stops the scan for good |
| `CmdQueue.CmdPriv.EnqueueCmdEx` | SPEAr1340/wifi/rtl8192cu/core/rtw_cmd.c:352-398 | appends the command under the lock, or refuses it when the hardware is not initialised |
| `CmdQueue.CmdPriv.UpSema` | SPEAr1340/wifi/rtl8192cu/core/rtw_cmd.c:391-391 | raises the semaphore for a producer that has inserted |
| `CmdQueue.CmdPriv.DownSema` | SPEAr1340/wifi/rtl8192cu/core/rtw_cmd.c:464-465 | wakes the thread, or ends its loop when interrupted |
| `CmdQueue.CmdPriv.DequeueCmd` | SPEAr1340/wifi/rtl8192cu/core/rtw_cmd.c:268-292 | takes the head of the queue, or nothing if and only if it is empty |
| `CmdQueue.CmdPriv.AtLabelNext` | SPEAr1340/wifi/rtl8192cu/core/rtw_cmd.c:474-490 | leaves the loop, goes back to sleep on an empty queue, or takes the next command |
| `CmdQueue.CmdPriv.FinishCmd` | SPEAr1340/wifi/rtl8192cu/core/rtw_cmd.c:492-520 | counts the command if its code is looked up |
| `CmdQueue.CmdPriv.DrainOne` | SPEAr1340/wifi/rtl8192cu/core/rtw_cmd.c:527-534 | frees one command, or ends the thread when none is left |
| `CmdRun.RunKeeps` | SPEAr1340/wifi/rtl8192cu/core/rtw_cmd.c:443-542 | in every interleaving: while the thread sleeps the queue is covered by the semaphore and the producers about to raise it; dequeued ++ freed ++ queued is the accepted commands in insertion order; both counters are exact; nothing is freed before the loop is left |
| `CmdRun.HandledIff` | SPEAr1340/wifi/rtl8192cu/core/rtw_cmd.c:487-520 | in every run handled ++ freed ++ queued is what was accepted, but for the command in the handler, if and only if every command the thread is done with had a code within the table |
| `CmdRun.QuietMeansDone` | SPEAr1340/wifi/rtl8192cu/core/rtw_cmd.c:443-542 | when nothing can move, every accepted command has been dequeued, or the thread has ended |
| `CmdRun.SettleTakesAll` | SPEAr1340/wifi/rtl8192cu/core/rtw_cmd.c:443-542 | while the driver is not stopped the thread, left alone, dequeues everything ever accepted, in order |
| `CmdRun.SettleStops` | SPEAr1340/wifi/rtl8192cu/core/rtw_cmd.c:443-542 | once the driver is stopped a thread that is awake or will be woken ends, with every accepted command dequeued or freed |
| `CmdRun.InternalStepsWork` | SPEAr1340/wifi/rtl8192cu/core/rtw_cmd.c:443-542 | every step of thread or producer lowers the work left, so no interleaving goes on for ever without new commands |
| `ScanCache.MlmePriv.constructor` | SPEAr1340/wifi/rtl8192cu/core/rtw_mlme.c:38-96 | every entry starts in the free pool |
| `ScanCache.MlmePriv.AllocNetwork` | SPEAr1340/wifi/rtl8192cu/core/rtw_mlme.c:173-209 | takes the head of the pool, or nothing if and only if it is empty |
| `ScanCache.MlmePriv.FreeNetwork` | SPEAr1340/wifi/rtl8192cu/core/rtw_mlme.c:211-274 | returns the entry to the pool unless it is fixed or still fresh, on wrapping 32-bit ticks |
| `ScanCache.MlmePriv.FreeNetworkNolock` | SPEAr1340/wifi/rtl8192cu/core/rtw_mlme.c:276-303 | returns the entry unless it is fixed |
| `ScanCache.MlmePriv.FreeNetworkQueue` | SPEAr1340/wifi/rtl8192cu/core/rtw_mlme.c:355-388 | the walk with deletion frees each entry of the list in turn |
| `ScanCache.MlmePriv.FreeScanqueue` | SPEAr1340/wifi/rtl8192cu/core/rtw_mlme.c:1123-1151 | every entry goes back to the pool in order, fixed or not |
| `ScanCache.MlmePriv.GetOldestWlanNetwork` | SPEAr1340/wifi/rtl8192cu/core/rtw_mlme.c:607-638 | the walk chooses as the specification does, passing over fixed entries |
| `ScanCache.MlmePriv.Search` | SPEAr1340/wifi/rtl8192cu/core/rtw_mlme.c:737-767 | the first matching entry, or else the oldest of all, fixed ones included |
| `ScanCache.MlmePriv.UpdateScannedNetwork` | SPEAr1340/wifi/rtl8192cu/core/rtw_mlme.c:726-831 | refreshes, skips, evicts or adds as specified, and always has an entry to write to |
| `ScanCache.OldestExists` | SPEAr1340/wifi/rtl8192cu/core/rtw_mlme.c:770-787 | with no free entry the scanned queue is not empty, so eviction never dereferences NULL |
| `ScanCacheRun.StepKeepsInv` | SPEAr1340/wifi/rtl8192cu/core/rtw_mlme.c:173-303 | every operation keeps the partition of the 64 entries and num_of_scanned equal to the scanned length |
| `ScanCacheRun.OldestIsMinimal` | SPEAr1340/wifi/rtl8192cu/core/rtw_mlme.c:607-638 | for both loops: the entry chosen has the smallest stamp of those considered, from any base from which all their stamps lie within half the range of the counter, and there is none if and only if none is considered |
| `ScanCacheRun.EvictsAnOldest` | SPEAr1340/wifi/rtl8192cu/core/rtw_mlme.c:757-787 | a full cache gives up one entry, and only that one, whose stamp is smallest from any base from which all stamps lie within half the range of the counter |
| `ScanCacheRun.ExpiryKeeps` | SPEAr1340/wifi/rtl8192cu/core/rtw_mlme.c:355-388 | an expiry pass keeps exactly the fixed or fresh entries in order; the others join the pool in order |
| `ScanCacheRun.UpdateLeavesOne` | SPEAr1340/wifi/rtl8192cu/core/rtw_mlme.c:726-831 | after an update exactly one entry is the target's network; unless a longer record was kept against a beacon it carries the new time |
| `ScanCacheRun.RunKeepsUnique` | SPEAr1340/wifi/rtl8192cu/core/rtw_mlme.c:568-605 | on survey-only runs no two entries are the same network |
| `InputEventReader.InputEventCircularReader.constructor` | SPEAr1340/libsensors/InputEventReader.cpp:36-43 | the ring starts empty |
| `InputEventReader.InputEventCircularReader.Fill` | SPEAr1340/libsensors/InputEventReader.cpp:50-73 | appends exactly what was read to the FIFO, also across the end of the buffer; an error or a torn read changes no unread event |
| `InputEventReader.InputEventCircularReader.ReadEvent` | SPEAr1340/libsensors/InputEventReader.cpp:75-80 | an event is available if and only if the FIFO is not empty, and it is its head |
| `InputEventReader.InputEventCircularReader.Next` | SPEAr1340/libsensors/InputEventReader.cpp:82-88 | removes the head |
| `InputEventReader.Queue` | SPEAr1340/libsensors/InputEventReader.cpp:50-88 | each place of the FIFO is a place of the ring, wrapped at the capacity |
| `GyroSensor.GyroSensor.ReadEvents` | SPEAr1340/libsensors/GyroSensor.cpp:142-202 | the samples delivered and the sample left pending are the fold of the raw events consumed; at most count samples are written; a failed first read is returned and consumes nothing; a pending initial sample goes out alone; a count below 1 is refused |
| `GyroSensor.GyroSensor.ReadRaw` | SPEAr1340/libsensors/GyroSensor.cpp:154-202 | the loop with its retry terminates on finite input with finitely many failing reads, and stops only with its count used up or the ring drained |
| `GyroSensor.GyroSensor.DrainAll` | SPEAr1340/libsensors/GyroSensor.cpp:142-202 | calls with any counts, over any chunks and failing reads, deliver together the fold of the whole input |
| `GyroSensor.DeliveredConcat` | SPEAr1340/libsensors/GyroSensor.cpp:170-190 | the fold goes on where it stopped |
| `GyroSensor.CutsDoNotMatter` | SPEAr1340/libsensors/GyroSensor.cpp:154-202 | however reads and counts cut the same raw events up, the calls deliver the same samples |
| `Eeprom.Adapter.ShiftOutBits` | SPEAr1340/wifi/rtl8192cu/core/rtw_eeprom.c:47-84 | the device takes in the low count bits, most significant first, one at each rising edge |
| `Eeprom.Adapter.ShiftInBits` | SPEAr1340/wifi/rtl8192cu/core/rtw_eeprom.c:86-119 | the 16 bits the device presents are rebuilt to its next word |
| `Eeprom.Adapter.EepromClean` | SPEAr1340/wifi/rtl8192cu/core/rtw_eeprom.c:157-184 | the device is deselected and the clock is low |
| `Eeprom.Adapter.EepromRead16` | SPEAr1340/wifi/rtl8192cu/core/rtw_eeprom.c:270-329 | returns the word at the register |
| `Eeprom.Adapter.EepromReadSz` | SPEAr1340/wifi/rtl8192cu/core/rtw_eeprom.c:335-376 | one command reads the words from an even start, two bytes a word |
| `Eeprom.Adapter.EepromRead` | SPEAr1340/wifi/rtl8192cu/core/rtw_eeprom.c:380-412 | exactly the bytes of the little-endian view of the words, from odd and even starts, for every length from 1, and nothing beyond them |
| `Eeprom.BitsRoundTrip` | SPEAr1340/wifi/rtl8192cu/core/rtw_eeprom.c:47-119 | shifting bits out and rebuilding them gives the number back |
| `BitArithmetic.RoundDown` | SPEAr1340/hardware/libaudio/ALSAStreamOps.cpp:197-213 | terminates with the largest power of two not above the input, 0 for 0, for words of any width |
| `BitArithmetic.NoneBetween` | SPEAr1340/hardware/libaudio/alsa_default.cpp:433-449 | no power of two lies between the result and the input |
| `BitArithmetic.PopCountIsOnes` | SPEAr1340/hardware/libaudio/ALSAStreamOps.cpp:57-65 | popCount is the number of set bits of every 32-bit word, and no stage overflows |

## Left out

- AdapterModule.Adapter.FreeStaInfo: the source indexes `sta_aid[aid - 1]` whatever the AID is, so outside the table for AID 0 and for an AID above NUM_STA that rtw_add_sta stored; the model tests the range first.
- AdapterModule.Adapter.OnAuth: challenge text generation is a parameter of the frame (whether the answer matches), and the P2P and power-save side effects are not modelled.
- ApRun.StepKeepsGoodIff: runs of the access point are free of scans and joins, also of those that a request for another SSID or BSSID starts after free_assoc_resources: collect_bss_info (rtw_mlme_ext.c:5951) and joinbss_reset write num_sta_no_ht too.
- ApRun.GoodThroughoutIff: the settings (`Config`) are fixed over a run; a beacon that changes them begins a new run in the state reached, to which the results apply if and only if ht_op_mode is in step (`ApRun.NewSettingsIff`).
- ApReset.FreeAssocKeepsGood: the flag _FW_LINKED is an input of the event, not part of the state.
- AdapterModule.Adapter.AddSta: rates, QoS option and the parameters derived from the HT capabilities are not modelled.
- ApSlots.SlotsCurrentIff: runs with rtw_add_sta are excluded, since such a request can hand a stale slot back to its station or take an AID from one.
- AdapterModule.Adapter.OnAssocReq: the element checks (SSID, rates, WPA and RSN policy, WPS, P2P) are inputs that say which status they give; what they do to station, lists, AID table and counters is modelled.
- AdapterModule.Adapter.ApFreeSta: deauthentication frames, block-ack teardown, the TIM and sleep bitmaps and the key search are not modelled.
- AdapterModule.Adapter.HtOperationUpdate: ht_op_mode is three bit-fields instead of one word; olbc_ht is only ever cleared, as in the source.
- AdapterModule.Adapter.constructor: slots are indices, not pointers; transmit and receive queues of a station, its timers and locks are not part of the state.
- ApPool.AllocKeepsPool: callers look an address up before they allocate it, so an address in use is excluded unless it is a multicast address, under which no lookup finds a station.
- ParseElems.ParseElems: the diagnostic output is not modelled.
- CollectBss.CollectBssInfo: once an access leaves an array nothing more is said about the result; signal quality and the 20/40 MHz coexistence counters are not modelled.
- BssInfo.GenerateIe: the SSID is at most its array of 32 bytes.
- SecRewrite.SecurityPriv.RestructSecIe: once an access leaves in_ie or sec_ie nothing more is said about the result; what the stack held in sec_ie and in the last byte of the suite is a parameter, in_ie is a buffer of any size from 12 bytes that holds at least in_len, out_ie has room for the whole output, and the event report is not modelled.
- SecRewrite.CopyWithin: _memcpy on overlapping ranges is undefined in C; the model takes it as a byte copy from the lowest address, as the driver relies on.
- SecMeaning.KeptIs: an element with a suite count of zero is outside this and the results built on it; its rewriting smears the selected suite upwards and is covered by SecRewrite.SecurityPriv.RestructSecIe only.
- SecMeaning.OutputIsOneIff: inside a WPS phase the WPS element goes out as it was given, and nothing is said about its form.
- SecurityIe.ParseSecIe: the two source functions are one method with the kind as a parameter.
- ClientLink.MlmeExtInfo.JoinCmd: joining an IBSS and every register write are not modelled.
- ClientLink.MlmeExtInfo.OnAssocRspFrame: the elements of the response and the capability field are not modelled; the frame is a record of the fields that are tested.
- ClientLink.MlmeExtInfo.OnBeaconFrame: what a linked client takes from later beacons is not modelled.
- SiteSurvey.MlmeExt.SiteSurvey: probe requests, channel and bandwidth switching and the P2P states are not modelled; outside them the channel is that at the index.
- SiteSurvey.MlmeExt.SiteSurveyCmd: the SSID to look for and the null-data frames are not modelled.
- CmdQueue.CmdPriv.FinishCmd: handlers, callbacks and the copy of the parameters are not modelled; register_cmd_alive always succeeds.
- ScanCache.MlmePriv.FreeNetworkQueue: the clock is read once for the whole pass instead of once an entry.
- ScanCache.MlmePriv.UpdateScannedNetwork: of the record, only the key, the element length, the beacon mark, the signal strength and the antenna are modelled.
- ScanCacheRun.RunKeepsUnique: createbss_cmd_callback adds without looking for a match, so runs with it are excluded; it does keep the partition.
- GyroSensor.GyroSensor.ReadEvents: the device has finite input and fails only finitely often, because the retry of the source makes a failed read again at once and would never end on a lasting failure; conversions are arbitrary functions to real numbers.
- Eeprom.Adapter.ShiftOutBits: the register is a record of its bits and `mask` is the position of its one bit; removal of the device is decided before the call.
- Eeprom.Adapter.EepromReadSz: going on to the next word by itself is a property of the device, and is part of the model of it.
- BitArithmetic.RoundDown: `i` is modelled by the position of its one bit, which makes the result independent of the word size.
- P2P attributes, P2P group-owner negotiation, WMM element rewriting and `get_wpa_ie`.
- The exact round trip of the TIM element: the length choice of update_BCNTIM drops the high byte when only high AIDs are set.
- Register and bus access, frame transmission, HAL callbacks, LEDs and logging.
- The power-control alive protocol, which this configuration compiles out.
- The accelerometer, whose readEvents returns a count other than the samples it fills, and the magnetometer, which repeats the gyroscope.
- ALSA devices, mixer, lights and policy manager: thin layers over libraries that are not here.
