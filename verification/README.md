# Designate zone propagation: model and proofs

Designate keeps DNS zones in a database (central), pushes them to nameservers (pool manager), answers zone
transfers and polls serials (mDNS), and sweeps its zones periodically (producer). This project models the
protocol that carries a zone edit to the nameservers and back, and the loops and stored structures around it,
and proves what they promise. `dafny verify dfyconfig.toml` checks all of it.

| module | models |
|---|---|
| `Consensus`, `PoolManager` | thresholds, the consensus and error serials, the status cache and `update_status` of the pool manager |
| `Storage`, `CentralStatus`, `Confluence`, `Edits` | central's zone, record and recordset rows, what a reported serial does to them in any order, and what central's own edits keep |
| `Propagation` | the whole protocol as a state machine: polls, late, lost, repeated and reordered messages, and any edits of the tables |
| `Poll`, `Axfr` | mDNS: the nested retry loops behind a serial poll, and the splitting of a zone transfer into messages |
| `Partition`, `Pagination`, `Sweep`, `ShardedSweep` | sharing shards between members, marker pagination, and the sweeps built on both |
| `ZoneForest`, `Views`, `Cascade`, `Notifications` | central's parent zones, view priorities, final deletes over linked tables, buffered notifications |
| `ChangeTracking`, `Primitives`, `RData`, `MemoryCache`, `Text` | the object layer, record-data text, the in-process cache, and the Python string functions they rest on |

What central, the pool manager and the producer update in place is modelled as classes with loops; each
method is proved against a function of the old state, and the theorems are about those functions. The store
is a set of maps. Nameserver replies, clocks, packet sizes and the rows other services insert or delete are
inputs that may be anything.

## Main results

- **Activation safety** (`Propagation.ActivationSafety`). Whatever the order, loss, repetition or delay of
  messages, and whatever edits of the tables come in between, a step that is not an edit makes a zone or record
  of serial S active only when the nameservers that have at some time reported a serial of at least S meet the
  threshold. Edits are exactly the steps outside the theorem, and there the code does make rows active with no
  such report: the default NS and A records of every new zone (`designate/central/service.py:1169`, `1209`) and
  other records a backend answers for (`2824-2891`), and a zone with its records on the outcome a backend
  reports, a failed update included (`2785-2790`, `2804-2820`; what this does is proved in `Cascade`). Converse:
  `AgreementIsAnnounced` says exactly which reports announce a serial, and `AgreementActivates` that delivering
  the announcement makes the zone active.
- **Confluence** (`Confluence.ReportsAreConfluent`, `Edits.RunsStayConfluent`). Between edits the reports on a
  zone may arrive in any order and number, with the same outcome, if and only if the zone is not waiting to be
  deleted, or none of its records is ahead of it or pending with no action; only the largest success serial and
  the largest error serial then matter. Central writes a record with its zone's serial and only raises that, so
  in every run of its edits and reports every zone meets the condition, also while it is being deleted. A transfer
  that lowers a secondary zone's serial (`designate/mdns/xfr.py:46-50`) is not among those edits.
- **Consensus** (`ConsensusIsOrderStatistic`, `EntryNeverLowered`, `RunsKeepConsensus`). The scan computes
  an order statistic. A report can lower a cached serial exactly when a zone missing from a nameserver during
  an update is filed over that nameserver's create entry; otherwise no run of reports lowers a consensus before
  one clears it.
- **AXFR** (`HandleAxfr`, `TransferIsOptimal`). The transfer is exact, and no other order-preserving split
  uses fewer messages.
- **Polling** (`GetSerialNumber`). The nested loops stay within the attempts and the time computed
  elsewhere by `max_prop_time`.
- **Sweeps** (`SweepCount`, `GroupYieldsOnce`, `ProducerReadsAllButOneShard`). A finished sweep reads a row that
  stays put once, plus the net number of times a marker row jumped back over it, however the other rows come and
  go; so it is read exactly once if and only if those jumps cancel out. The producer asks for no sort key, so
  its keys are the creation time and the id, which never change, and its markers never jump: one sweep by all
  members reads each such row exactly once, except in the last shard, which the producer's own list leaves out.
- **Parent zones** (`RunsStayLinked`, `RunsStaySound`, `PlainRunsStayForests`, `PlainNamesAreSafe`,
  `RootIsTopmost`). In every run, also of creations that fail half-way, each tree belongs to one tenant and the
  parent links cannot loop. Every parent encloses its child exactly as long as the search for subzones finds
  only names it encloses, which is always so just for names without an underscore. A creation that fails
  half-way leaves an enclosed zone without a parent exactly when it has not adopted one that had none.
- **Stored structures** (`PrioritiesSpellTheList`, `CascadeIsExact`, `RunAll`, `TrackingIsExact`, `RoundTrip`,
  `TraceRefines`, the record-data round trips).

## Where the code departs from its own description

The model follows the code in each of these.

- `paginate_query` takes `sort_dirs` but does not use it (`designate/sqlalchemy/utils.py:60`).
- `_is_superzone` searches with SQL LIKE, which reads `_` as any character, while zone names may hold `_`
  (`designate/central/service.py:472`, `designate/schema/format.py:27`).
- A NO_ZONE answer to an update is cached under the create action (`designate/pool_manager/service.py:914-916`)
  and may lower the serial kept there.
- A threshold of 0 counts as not given (`designate/pool_manager/service.py:788`).
- Deleting a zone leaves its recordsets that never held a record (`designate/central/service.py:1390-1399`),
  and a failed creation leaves the associations of the records it removes (`designate/central/service.py:2791-2797`).
- `obj_reset_changes([])` resets every field (`designate/objects/base.py:375`).
- A plain dictionary with a `designate_object.name` key does not come back from its primitive form
  (`designate/objects/base.py:180`).
- SOA text accepts numbers MX and SSHFP text refuse, such as `007` (`designate/objects/rrdata_soa.py:91`).
- A cached value whose lifetime ends at the instant 0 never expires (`designate/common/memorycache.py:64`).
- A partitioner with a coordination backend does not inform its callbacks on start
  (`designate/coordination.py:223`).

## Model

| member | source | states |
|---|---|---|
| `Consensus.SortedSerials` | designate/pool_manager/service.py:792-804 | the sorted serials are in order, and a serial is among them if and only if some status has it |
| `Consensus.SortingPermutes` | designate/pool_manager/service.py:792-804 | sorting keeps every serial as often as it was reported |
| `Consensus.ExceedOrMeetThreshold` | designate/pool_manager/service.py:780-790 | the percentage comparison, with the given threshold or, when that is 0, the pool's own: 100 times the count is at least the threshold times the targets |
| `Consensus.ScanForConsensus` | designate/pool_manager/service.py:821-834 | a positive result was reported and 100 times the statuses that have reached it is at least the threshold times the targets; no greater reported serial has as many |
| `Consensus.ConsensusIsOrderStatistic` | designate/pool_manager/service.py:821-834 | a positive serial is at most the consensus if and only if some status has reached it and 100 times the number that have is at least the threshold times the targets |
| `Consensus.ConsensusMonotone` | designate/pool_manager/service.py:821-834 | pointwise growth of the serials cannot lower the consensus |
| `Consensus.LeastAbove` | designate/pool_manager/service.py:836-847 | the error serial is the smallest reported serial above the consensus, 0 if and only if there is none |
| `Consensus.ScanForError` | designate/pool_manager/service.py:836-847 | the ascending scan finds that smallest serial |
| `Consensus.CountRows` | designate/pool_manager/service.py:806-816 | the counting loop of `_is_consensus` gives the number of statuses with the wanted verdict |
| `PoolManager.Service.RetrieveStatuses` | designate/pool_manager/service.py:930-962 | cached statuses are taken as they are, the others come from mDNS and are cached, one after the other |
| `PoolManager.Service.RetrieveFromMdns` | designate/pool_manager/service.py:888-928 | what is cached and returned for each answer and action; a messaging error leaves everything alone |
| `PoolManager.MissingZoneIsFiled` | designate/pool_manager/service.py:909-920 | a missing zone is an error filed under create during a create or an update, and a success during a delete |
| `PoolManager.Service.EnterReport` | designate/pool_manager/service.py:648-665 | a report creates the entry if needed and replaces it only with a non-zero serial that is not lower; the serial from before is remembered |
| `PoolManager.Service.IsConsensus` | designate/pool_manager/service.py:806-819 | whether the statuses with this verdict meet the given threshold, with the cache as retrieval leaves it |
| `PoolManager.Service.GetErrorSerial` | designate/pool_manager/service.py:836-847 | the result is 0 or above the consensus; it is the least serial above it when enough nameservers are in error |
| `PoolManager.Service.ClearCache` | designate/pool_manager/service.py:865-886 | exactly the entries of the pool's nameservers for that zone and action go |
| `PoolManager.Service.TellCentral` | designate/pool_manager/service.py:677-705 | which of the success, error and no-zone messages are sent, and in which order |
| `PoolManager.Service.UpdateStatus` | designate/pool_manager/service.py:628-710 | the cache and the messages after a report, as one function of the state before and of what mDNS answers |
| `PoolManager.ReportsSent` | designate/pool_manager/service.py:677-705 | central is told of a success, an error and a missing zone, in this order; the error serial is 0 unless the failing statuses meet the threshold, and then the least serial past the consensus, or 0 |
| `PoolManager.ClearedWhenSettled` | designate/pool_manager/service.py:707-710 | the entries of the pool's nameservers for the zone and action are cleared if and only if the consensus is the zone's serial and the statuses in success are at least as many as the targets |
| `PoolManager.RetrieveFull` | designate/pool_manager/service.py:930-962 | with an entry for every nameserver, retrieval asks nobody and changes nothing |
| `PoolManager.EntryNeverLowered` | designate/pool_manager/service.py:906-925 | a report never lowers a cached serial, whatever mDNS answers, if and only if that entry is not a create entry of a pool nameserver without an update entry while the zone is being updated |
| `PoolManager.ExposedIsLowered` | designate/pool_manager/service.py:908-926 | such an entry drops to serial 0 when its nameserver denies the zone |
| `PoolManager.ConsensusNeverDrops` | designate/pool_manager/service.py:648-710 | while every nameserver has an entry and none is exposed, no report about any zone lowers the consensus; it can only be cleared, and only by a report about that zone and action |
| `PoolManager.RunsKeepConsensus` | designate/pool_manager/service.py:628-710 | over any run of reports about any zones, a consensus does not drop until a report clears it, as long as no entry it rests on is exposed |
| `CentralStatus.PrefilterIsExact` | designate/central/service.py:2918-2939 | the storage criterion selects a record if and only if the transition changes it, apart from success reports on records with no action left |
| `CentralStatus.UpdateZoneOrRecordStatus` | designate/central/service.py:2966-2994 | the next action and status of a row for each verdict, and whether it is deleted |
| `CentralStatus.NoZonePurges` | designate/central/service.py:2989-2992 | a NO_ZONE report leaves exactly the zones, records and recordsets that have no part in the zone |
| `CentralStatus.UpdateRecordStatus` | designate/central/service.py:2914-2964 | the loop leaves the records the transition gives, without the deleted ones and the recordsets that emptied; it fails if and only if a recordset is missing |
| `CentralStatus.UpdateZoneStatus` | designate/central/service.py:2893-2912 | the zone takes its next state or goes; a missing zone is an error and changes nothing |
| `CentralStatus.UpdateStatus` | designate/central/service.py:2753-2769 | the whole transaction: both updates take place, or on any error none; the zdns tables are not touched; a NO_ZONE report removes the zone, all its records and the recordsets that held only those, and nothing else |
| `Confluence.BestIsLargest` | designate/central/service.py:2969-2982 | the success extreme of a run is one of its success serials and covers all of them |
| `Confluence.WorstIsLargest` | designate/central/service.py:2984-2987 | the error extreme is one of the error serials and covers all of them; it is everything if and only if serial 0 is among them |
| `Confluence.SettleStep` | designate/central/service.py:2966-2994 | the transition applied to a row settled by earlier reports is the row settled by all of them |
| `Confluence.SettleDbStep` | designate/central/service.py:2893-2994 | the same for all three tables, including recordsets emptied in two rounds |
| `Confluence.DeliverSettles` | designate/central/service.py:2893-2994 | any run of success and error reports leaves the tables a closed form of its two extremes, unless the zone is waiting to be deleted with a record ahead of it or pending with no action |
| `Confluence.OnlyExtremesMatter` | designate/central/service.py:2893-2994 | two runs with the same extremes give the same zones, records and recordsets, under the same condition |
| `Confluence.ReportsAreConfluent` | designate/central/service.py:2893-2994 | every two runs of the same reports, in any order and with any repetition, give the same tables if and only if the zone is not waiting to be deleted, or none of its records is ahead of it or pending with no action |
| `Confluence.OrderMatters` | designate/central/service.py:2893-2994 | in every other state two reports in either order leave different records: the zone's own success serial, and the report such a record is waiting for |
| `Edits.IncrementSerial` | designate/utils.py:241-248 | the new serial is above the old, not before the clock, and ahead of the old by one or else the clock itself |
| `Edits.NextKeepsInStep` | designate/central/service.py:2009-2010 | each edit (record writes at 1879-1881, 2008-2010, 2125-2127 and 2187-2189, zone writes at 1105-1106, 1340-1350 and 1411-1414) and each report leaves no record ahead of its zone or pending with no action, and every record with its recordset |
| `Edits.RunsStayConfluent` | designate/central/service.py:2753-2769 | in every run of central's edits and reports every zone is confluent, also while being deleted |
| `Storage.Store.DropRecord` | designate/central/service.py:2959-2964 | a record goes, with its recordset when it was the last one there; a missing recordset is an error |
| `Propagation.CountedHaveReached` | designate/pool_manager/service.py:930-962 | the statuses counted at or past a serial are no more than the nameservers that have reported one |
| `Propagation.AnnouncementBacked` | designate/pool_manager/service.py:669-684 | a consensus is announced only when enough nameservers have at some time reported it |
| `Propagation.AgreementIsAnnounced` | designate/pool_manager/service.py:669-684 | a report announces a serial or a later one if and only if, with it, some nameserver is there and those that are meet the threshold, the zone was not taken to be active, and the reporting nameserver was not ahead of the consensus |
| `Propagation.StepBacked` | designate/pool_manager/service.py:628-710 | every step keeps the history invariant, whatever an edit does to the tables: each cached serial was reported, and each success sent is backed by enough nameservers |
| `Propagation.ObservationsStay` | designate/pool_manager/service.py:628-710 | what a nameserver has once reported counts in every later state of a run |
| `Propagation.ActivationSafety` | designate/central/service.py:2756-2769 | in every run from an empty cache and no messages, a step other than an edit makes a zone or record of serial S active only if 100 times the nameservers that have reported at least S is at least the threshold times the targets |
| `Propagation.AgreementActivates` | designate/pool_manager/service.py:669-684 | the report that completes a threshold's agreement on a waiting zone's serial sends a message whose delivery makes the zone active |
| `Poll.MakeAndSend` | designate/mdns/notify.py:195-278 | at most `max_retries` attempts, retried exactly after EAGAIN or a timeout; the reply is the screened last one; the time is that of the attempts and one sleep after each that was retried |
| `Poll.GetSerialNumber` | designate/mdns/notify.py:95-170 | it stops at the first attempt whose serial is new enough, that finds no zone where none is expected, or that raises, and otherwise after `max_retries`; status, serial and retries left in each case, the serial being that of the latest attempt that brought one; the exact time, which is at most `max_prop_time` |
| `Poll.ElapsedFits` | designate/utils.py:544-545 | attempts within their timeout with one sleep after each take no longer than `max_prop_time` |
| `Poll.MaxPropTimeIsReached` | designate/utils.py:544-545 | the bound cannot be lowered: it is what attempts that all time out take |
| `Poll.LatestMeans` | designate/mdns/notify.py:136-157 | the serial returned on giving up is none if and only if no attempt brought one, and else that of the latest that did |
| `Poll.MissingMeans` | designate/mdns/notify.py:128-131 | a zone is missing for a denial, or for an empty answer without an error |
| `Poll.SerialMeans` | designate/mdns/notify.py:136-142 | a serial is taken exactly from an authoritative reply without error whose one answer is the zone's SOA |
| `Axfr.SendRecords` | designate/mdns/handler.py:279-324 | the packets up to the stop are the records in order, each non-empty, within the limit and unable to take the next record; it aborts exactly at a record too large alone, and the loop ends |
| `Axfr.Renderer.Finalize` | designate/mdns/handler.py:326-340 | the packet gets back the room reserved for TSIG and keeps its answers |
| `Axfr.HandleAxfr` | designate/mdns/handler.py:249-324 | SOA, the other records in order, SOA, cut into such packets, or packets up to a record too large and then one SERVFAIL; each answer has the name, type and data of its row, and the row's own TTL, or the zone's if and only if it has none; each packet is held to the configured size less the 235 bytes of a TSIG |
| `Axfr.AbortsAtFirstOversized` | designate/mdns/handler.py:303-315 | every record before the point where the loop stops fits a packet of its own |
| `Axfr.AdditiveIsHereditary` | designate/mdns/handler.py:300-302 | record sizes that add up make a part of a fitting packet fit |
| `Axfr.GreedyStaysAhead` | designate/mdns/handler.py:279-322 | the greedy split of a tail needs no more packets than any split of a longer list |
| `Axfr.TransferIsOptimal` | designate/mdns/handler.py:279-322 | no order-preserving split within the limit has fewer packets than a complete transfer |
| `Partition.CeilDiv` | designate/coordination.py:184-185 | the least whole number of shards per member that covers the list |
| `Partition.PartitionFor` | designate/coordination.py:181-191 | a member gets its share; an empty group and a stranger are errors |
| `Partition.SharesCoverAll` | designate/coordination.py:181-191 | the shares in member order concatenate to the whole list, none larger than the quotient rounded up |
| `Partition.HeldByOne` | designate/coordination.py:181-191 | every position of the list is in exactly one member's share |
| `Partition.RangeIsShare` | designate/producer/tasks.py:80-88 | the BETWEEN filter of a member takes a listed shard if and only if it is in the member's share |
| `Partition.ShardSweptByOne` | designate/producer/tasks.py:80-107 | every listed shard passes the filter of exactly one member |
| `Partition.Partitioner.Start` | designate/coordination.py:209-228 | with a backend it takes its share and informs nobody, so its tasks are in step only if they held that share already; without one it takes everything and informs all tasks |
| `Partition.Partitioner.OnGroupChange` | designate/coordination.py:175-179 | after a change every subscribed task works on the member's new share |
| `Partition.Partitioner.WatchPartitionChange` | designate/coordination.py:230-236 | a task that subscribes after the start is informed at once, which keeps all tasks in step |
| `Pagination.AfterParts` | designate/sqlalchemy/utils.py:69-86 | coming after another key in mixed lexicographic order is agreeing up to some position and going beyond there |
| `Pagination.AfterTransitive` | designate/sqlalchemy/utils.py:95-130 | the order is transitive |
| `Pagination.AfterTotal` | designate/sqlalchemy/utils.py:95-130 | of two different keys one comes after the other |
| `Pagination.CriteriaMeanAfter` | designate/sqlalchemy/utils.py:63-87 | a row passes the OR of ANDs if and only if its keys come strictly after the marker's, in mixed directions |
| `Pagination.SortQuery` | designate/sqlalchemy/utils.py:95-130 | success if and only if the directions are well given for every key; each of the four errors exactly when the checks, in the order made, first fail there |
| `Pagination.BuildCriteria` | designate/sqlalchemy/utils.py:69-84 | one conjunction per key: equal on the keys before it, beyond the marker on it |
| `Pagination.PaginateQuery` | designate/sqlalchemy/utils.py:56-92 | the criteria, order and limit of the query, from `sort_dir` alone: descending for `desc`, ascending for `asc` or none, an error for any other; its two errors exactly |
| `Pagination.CheckMarker` | designate/sqlalchemy/utils.py:133-152 | the row with the marker's id; an error for a malformed identifier, another if and only if no row has the id |
| `Sweep.TakePage` | designate/sqlalchemy/utils.py:128-130 | executing the query gives the first rows behind the marker, in order, all of them or `limit` of them |
| `Sweep.FindPage` | designate/sqlalchemy/base.py:250-263 | a page is the first rows strictly after the marker row as the table has it now; a marker that is gone is an error |
| `Sweep.Iter` | designate/producer/tasks.py:90-102 | the pages fetched, each behind the last row of the one before, are yielded in order, and with them only rows that were there and pass the filter; the walk finishes exactly on an empty page and fails only on a lost marker |
| `Sweep.ReadSoFar` | designate/producer/tasks.py:90-102 | after each page a row that stays put has been read once if its keys are not past the page, else not yet, plus once for each net jump of a marker back over it |
| `Sweep.SweepCount` | designate/producer/tasks.py:90-102 | a finished sweep yields each row that stays with its keys once plus the net jumps of its markers back over that row, whatever other rows do; exactly once if and only if the jumps cancel out |
| `Sweep.SweepYieldsOnce` | designate/producer/tasks.py:90-102 | exactly once when marker rows keep their keys |
| `Sweep.CreationOrderIsStill` | designate/sqlalchemy/base.py:224 | with the keys used when a caller names none, creation time and id, no marker ever moves |
| `Sweep.FixedSweepEnds` | designate/producer/tasks.py:90-102 | on a table that does not change there are no more non-empty pages than rows |
| `Sweep.IterFixed` | designate/producer/tasks.py:90-102 | on a table that does not change the sweep finishes and yields every selected row exactly once |
| `ShardedSweep.IterZones` | designate/producer/tasks.py:104-107 | a member without shards raises before reading; any other sweeps the rows in its shards |
| `ShardedSweep.GroupYieldsOnce` | designate/producer/tasks.py:80-107 | one sweep by all members yields, once in all, each row that stays put in a listed shard, when marker rows keep their keys |
| `ShardedSweep.ProducerReadsAllButOneShard` | designate/producer/service.py:69-71 | over `range(0, 4095)` and in creation order a settled zone is read exactly once if and only if its shard is not 4095 |
| `ZoneForest.PatternFinds` | designate/central/service.py:471-474 | the LIKE search finds exactly the longer names whose tail after a dot fits the name, underscores fitting anything |
| `ZoneForest.Central.IsSubzone` | designate/central/service.py:436-461 | the loop over labels finds the zone with the longest enclosing name, or nothing if and only if no zone encloses the name |
| `ZoneForest.Central.IsSuperzone` | designate/central/service.py:463-476 | exactly the zones the search term matches |
| `ZoneForest.Central.CreateZone` | designate/central/service.py:995-1057 | each refusal exactly when its check is the first to fail, changing nothing; otherwise the zone is stored, and it succeeds or fails half-way exactly as what follows does; the invariants kept in each case |
| `ZoneForest.Central.StoreZone` | designate/central/service.py:1059-1094 | the new zone is filed under the nearest encloser and adopts every zone found; when the backend or one of the updates fails, it stays there with only the zones adopted so far |
| `ZoneForest.Central.Adopt` | designate/central/service.py:1085-1092 | the zones found get the new zone as their parent, all of them or as many as are updated before one fails, and no other zone changes |
| `ZoneForest.Central.DeleteZone` | designate/central/service.py:1355-1388 | a caller of another tenant is told there is no such zone and changes nothing; a zone with any child is refused, although only the zones the caller sees are counted; otherwise just that zone goes |
| `ZoneForest.NearestSpeaksForAll` | designate/central/service.py:1021-1031 | checking the tenant of the nearest encloser checks all of them |
| `ZoneForest.GrowthKeepsSound` | designate/central/service.py:1074-1092 | however many zones have been adopted, tenants and links stay in order, and only zones nothing encloses lack a parent if and only if no zone below without a parent was missed |
| `ZoneForest.CreateKeepsForest` | designate/central/service.py:1036-1041 | a creation keeps every parent an encloser if and only if the search finds only names it encloses |
| `ZoneForest.PlainNamesAreSafe` | designate/central/service.py:471-476 | a name can be created in every forest without misfiling a zone if and only if it holds no underscore |
| `ZoneForest.DeleteKeepsSound` | designate/central/service.py:1375-1380 | the count a caller sees is complete, and both invariants are kept |
| `ZoneForest.RunsStayLinked` | designate/central/service.py:1021-1092 | over all runs, creations that fail half-way included, enclosing zones share a tenant, names differ, and a parent exists, has the tenant and a shorter name |
| `ZoneForest.RunsStaySound` | designate/central/service.py:1021-1041 | over all runs in which no creation misses a zone below that has no parent, only a zone nothing encloses lacks a parent |
| `ZoneForest.PlainRunsStayForests` | designate/central/service.py:1087-1092 | over all runs whose creations go through and hold no underscore in the name, every parent encloses its child |
| `ZoneForest.Root` | designate/central/service.py:1021-1027 | following the parents ends, at a zone of the same tenant that nothing encloses in a sound store |
| `ZoneForest.RootIsTopmost` | designate/central/service.py:1021-1027 | that zone encloses every other zone that encloses the one started from |
| `Views.ViewStore.Create` | designate/central/service.py:3488-3495 | the new row keeps its priority and every row of another name moves down by one |
| `Views.ViewStore.Delete` | designate/central/service.py:3625-3637 | the row goes and every row below it moves up by one |
| `Views.CreateIsCons` | designate/central/service.py:3489-3495 | creating a view is consing on the list the priorities spell |
| `Views.DeleteIsRemove` | designate/central/service.py:3625-3637 | deleting a view removes it from that list, the others keeping their order |
| `Views.PrioritiesSpellTheList` | designate/central/service.py:3489-3637 | over all runs the priorities are 1..n without repeats and spell the ordered list |
| `Views.FreshNameNeedsPriorityOne` | designate/central/service.py:3489-3495 | a row of a new name keeps the ranking if and only if it arrives with priority 1 |
| `Views.TakenNameNeedsPriorityTwo` | designate/central/service.py:3491-3492 | a row that repeats a name keeps the ranking if and only if it arrives with priority 2 and the old row has priority 1 |
| `Cascade.DeleteRecordWithZone` | designate/central/service.py:1390-1399 | one record goes with its association, its zdns record and its emptied recordset; any missing link is an error |
| `Cascade.DropRecords` | designate/central/service.py:2791-2797 | after a failed creation the records and their emptied recordsets go and nothing else |
| `Cascade.ActivateRecords` | designate/central/service.py:2785-2790 | exactly the records of the zone become active with no action |
| `Cascade.UpdateZoneStatus` | designate/central/service.py:2771-2822 | whether each action and outcome succeeds, exactly: the zone must exist, for a final delete its records must be linked, for a failed create their recordsets must exist; the tables and the zone row after each |
| `Cascade.LinkedByOneToOne` | designate/central/service.py:1390-1399 | the one-to-one linkage is enough for a final delete to go through |
| `Cascade.CascadeIsExact` | designate/central/service.py:2799-2801 | a final delete leaves no record, association or zdns record of the zone, changes nothing of other zones, and keeps the one-to-one linkage |
| `Cascade.EmptyRecordsetsSurvive` | designate/central/service.py:1395-1397 | a recordset of the zone survives if and only if it held no record |
| `Cascade.FailedCreateBreaksLinkage` | designate/central/service.py:2791-2797 | a failed creation keeps the one-to-one linkage if and only if the zone has no records |
| `Notifications.Buffer.Run` | designate/central/service.py:146-195 | a nested call only adds to the front of the queue; the outermost one sends the queue and empties it, whether it returns or raises; the stack is restored |
| `Notifications.EndedIsEmittable` | designate/central/service.py:162-174 | what is queued is, counted with repeats, the payloads of the calls that returned |
| `Notifications.RunAll` | designate/central/service.py:146-195 | a run of outermost calls sends exactly the payloads of the calls that returned, once each, latest queued first within each outermost call, and ends with stack 0 and an empty queue |
| `ChangeTracking.DesignateObject.Set` | designate/objects/base.py:62-72 | an undeclared name is refused; the value, the change set and the original value after an assignment |
| `ChangeTracking.DesignateObject.Reset` | designate/objects/base.py:373-382 | the named fields, or for an empty list all fields, lose their change mark and original value |
| `ChangeTracking.DesignateObject.GetChanges` | designate/objects/base.py:364-371 | the changed fields with their values |
| `ChangeTracking.DesignateObject.GetOriginalValue` | designate/objects/base.py:384-391 | the recorded original, else the value, else an error |
| `ChangeTracking.TrackingIsExact` | designate/objects/base.py:62-72 | from a full reset on, over any sets and full or partial resets: fields that differ from their snapshot are in the change set, the changes over the snapshot give the object, and originals are the snapshot's values |
| `ChangeTracking.SinceReset` | designate/objects/base.py:364-391 | with assignments only, that snapshot is the object as it was at the reset |
| `ChangeTracking.MarksAreChanges` | designate/objects/base.py:62-72 | a full reset leaves no mark; an assignment marks its field exactly when it changes the value or sets it first, and no other |
| `ChangeTracking.MarkedSinceReset` | designate/objects/base.py:62-72 | over any assignments a field is marked if and only if it was marked or some assignment met another value or none |
| `Primitives.ToPrimitive` | designate/objects/base.py:257-279 | the result is a primitive form of the object, at every depth, for plain and list objects |
| `Primitives.FromPrimitive` | designate/objects/base.py:165-194 | the loops compute the decoded object, or fail where a key, class or field is missing |
| `Primitives.RoundTrip` | designate/objects/base.py:487-552 | an object comes back with its set fields, change set and originals if and only if no plain value in it claims to be an object |
| `MemoryCache.Client.Fetch` | designate/common/memorycache.py:57-69 | every expired key goes, and the value is that of an unexpired key |
| `MemoryCache.Client.AddNew` | designate/common/memorycache.py:79-83 | stores only where no live value is |
| `MemoryCache.Client.Increment` | designate/common/memorycache.py:85-92 | the sum is stored as text under the old expiry; no live value and no integer are told apart |
| `MemoryCache.IncrementAdds` | designate/common/memorycache.py:85-92 | incrementing a live number or its text gives the sum, and later reads and increments build on it |
| `MemoryCache.StepRefines` | designate/common/memorycache.py:57-97 | each call answers as a map with a lifetime per key would, and stays related to it |
| `MemoryCache.TraceRefines` | designate/common/memorycache.py:57-97 | every trace under a non-decreasing clock answers like that map |
| `MemoryCache.StorableIsNeeded` | designate/common/memorycache.py:71-77 | a stored value is lost at the right time if and only if its lifetime does not end at the instant 0 |
| `RData.MxPrintParse` | designate/objects/rrdata_mx.py:43-53 | parsing the printed record gives it back if and only if the exchange holds no space |
| `RData.MxParsePrint` | designate/objects/rrdata_mx.py:43-53 | every accepted text is printed back unchanged |
| `RData.MxRecord.FromString` | designate/objects/rrdata_mx.py:46-53 | the fields are set for accepted text and untouched otherwise |
| `RData.SshfpPrintParse` | designate/objects/rrdata_sshfp.py:50-62 | parsing the printed record gives it back if and only if the fingerprint holds no space |
| `RData.SshfpParsePrint` | designate/objects/rrdata_sshfp.py:50-62 | every accepted text is printed back unchanged |
| `RData.SshfpRecord.FromString` | designate/objects/rrdata_sshfp.py:53-62 | the fields are set for accepted text and untouched otherwise |
| `RData.SoaPrintParse` | designate/objects/rrdata_soa.py:83-95 | parsing the printed record gives it back if and only if neither name holds a space |
| `RData.SoaParsePrint` | designate/objects/rrdata_soa.py:83-95 | an accepted text is printed back unchanged if and only if its five numbers are in canonical form |
| `RData.SoaRecord.FromString` | designate/objects/rrdata_soa.py:87-95 | all fields are set for accepted text; a bad number leaves it and the fields after it as they were and sets those before; a wrong number of words leaves the record alone |
| `Text.JoinSplit` | designate/objects/rrdata_mx.py:47 | joining the parts of a split text gives the text |
| `Text.SplitJoin` | designate/objects/rrdata_mx.py:47 | splitting joined parts gives them back when none holds the separator |
| `Text.PyIntRepr` | designate/objects/rrdata_mx.py:49 | reading a printed integer gives that integer |
| `Text.PyIntMeans` | designate/objects/rrdata_soa.py:91 | `int` accepts exactly blanks around one optional sign and digits, and gives the number they spell |
| `Text.LeadingZero` | designate/objects/rrdata_soa.py:91 | leading zeros make no difference to it |
| `Text.ReprMeans` | designate/objects/rrdata_mx.py:49 | a text passes the guard `repr(int(v)) == v` if and only if it is digits without a leading zero, or a minus sign and such digits other than zero |

## Left out

- Sockets, RPC, HTTP, policy, quota, configuration, logging and metrics: I/O and libraries.
- SQLAlchemy, the database and dnspython: a query is a selection over a map or set of rows without nulls, and a
  message renderer is any predicate saying which answers fit a size.
- Collation: the database's case-insensitive comparison of names is not modelled; LIKE is the standard one
  without an escape character.
- `Decimal` percentages are compared exactly, as `count * 100 >= threshold * total`; rounding to 28 digits is
  not modelled. A pool without targets is excluded, where the percentage is undefined. The ceiling of a
  floating-point quotient in `_partition` is exact here.
- Propagation.ActivationSafety: says nothing about edits, which may make a row active outright, as the default
  records of a zone and a backend's outcome do (`designate/central/service.py:1169`, `1209`, `2785-2820`).
- Lists of database rows without a stated order (records of a zone, zones found below a name, view rows) are
  walked in any order; the iteration order of sets and dictionaries likewise.
- ZoneForest.Central.Adopt: what `update_zone` does besides the parent (status, serial, pushing the zone) is not
  modelled. The parent is not claimed to be the nearest encloser: a new superzone takes over every zone found.
- ZoneForest.Central.DeleteZone: models the abandoning caller, for whom the row goes at once. For any other the
  row stays, marked, until a report removes it; the forest in that window, and zone ownership transfers, are
  not modelled.
- ZoneForest.Central.CreateZone: quota, blacklist, TLD and TTL checks come before what is modelled and only refuse.
- Edits.NextKeepsInStep: zone transfers from a master, which set a secondary zone's serial to the master's
  (`designate/mdns/xfr.py:46-50`), are not among the edits.
- Axfr.Renderer.Finalize: the header bytes and a TSIG longer than the room reserved for it, which the renderer
  would refuse, are not modelled.
- Notifications.Buffer.Run: a plugin or notifier that raises half-way through its payloads is not modelled.
- Views.ViewStore.Create: leaves out the storing of the new row by the backend and the ACL tables.
- Primitives.RoundTrip: date-time fields, schema validation and aliasing between the two sides are not
  modelled; original values travel as they are.
- Text.PyIntMeans: signs, surrounding blanks and leading zeros are read as Python does; other digits than 0-9,
  underscores and the `L` of long integers are not modelled. The SRV record prints and reads its parts in
  different orders, so it has no round trip.
- PoolManager.Service.UpdateStatus: the SQL cache's duplicate-key error and lifetimes are reduced to a map
  whose entries may expire at any time between reports; the lock makes one report atomic.
- Poll.GetSerialNumber: negative retry counts are not modelled.
- `_target_sync` removes from a list while walking over it, and `synchronized_zone` keeps its mark on an
  exception; neither has a clean property here. Zone operations are taken to be serialised.
- The remaining API, backends, validation schemas, manage commands and scripts.
