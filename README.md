# CloudStack to PowerDNS exporter: a Dafny model

The exporter reads CloudStack event notifications and keeps a PowerDNS
MySQL backend in step with the virtual machines they describe:

- When a VM create or start succeeds, it writes forward A/AAAA records for
  the VM and, if the VM has a group label, for its group alias. On a create
  it also writes IPv4/IPv6 PTR records.
- Every record it writes gets a row in its own `cs_mapping` table, keyed by
  the VM uuid.
- When a VM destroy completes, it reads those mapping rows back and deletes
  exactly the records they name.

This project models that core:

- The event predicates, the payload prefix strip, and the four functions
  that issue SQL (`update_a_zone`, `update_ptr_zone`, `create_new_records`,
  `delete_removed_records`), from `src/exporter.py`.
- The derivation of a VM's names from its description (fqdn, IPv4 and IPv6
  reverse pointer names and zones, group alias), from
  `src/lib/virtual_machine.py`.

Layout:

- `wrappers.dfy`: `Option` and `Result`.
- `text.dfy`: the Python string operations the code uses.
  - `lower()` is modelled over ASCII.
  - `split`, `join`, slicing and `filter` are modelled as written.
  - Truthiness of `None`/`""` is modelled.
- `virtual_machine.dfy`: the `VirtualMachine` constructor as a function from
  the decoded VM description to a `Vm` record or the exception it raises,
  plus the reverse-name computations and `group_fqdn`.
  - An IPv6 address or network is given in exploded form (32 hex nibbles).
  - The network's `reverse_pointer` text is modelled character by character:
    the reversed prefix digits, the `/`, then the reversed nibbles. This
    keeps `split('/')[1][pref_cut:]` faithful.
- `tables.dfy`: rows of `records` and `cs_mapping`, the five SQL statements
  the exporter issues (`Stmt`), and their effect (`Exec`, `Run`).
  - `cs_mapping` keeps `UNIQUE(uuid, record, ipaddress)` with MySQL NULL
    semantics: a row with a NULL address never collides, so `INSERT IGNORE`
    of such a row always adds it.
  - The key that `REPLACE INTO records` replaces on is a parameter
    (`ReplaceKey`): none (PowerDNS's stock schema) or (name, type,
    domain_id). It is an assumption of the model.
- `store.dfy`: class `PowerDns`. It holds the two mutable tables as fields
  and the `domains` map (zone name to id) as a constant, with one method per
  SQL statement.
- `exporter.dfy`: the event predicates, the payload strip, and the four
  SQL-issuing functions as methods on a `PowerDns`.
  - Each method is proved to leave the tables as running a plan (a statement
    list) leaves them.
  - The exporter's promises are proved about the plans.

Two behaviours of the code differ from what it evidently aims at. The model
follows the code in both:

- **Replaying a create is not idempotent**, although the delete-then-write
  scheme suggests it was meant to be.
  - The forward and PTR mapping rows are inserted with a NULL address. Under
    MySQL's NULL semantics `INSERT IGNORE` never skips them, so each replay
    adds another copy (`ReplayDuplicatesMappingRows`).
  - The pre-delete removes only records named `vm.fqdn`. Without a unique
    key on `records`, every `REPLACE INTO` whose name is not `vm.fqdn` adds a
    second copy on replay: the forward records in an account network domain
    or in the common zone, the group-alias records and the PTR records.
    `ReplayDuplicatesRecords` shows it for the forward A record under a
    network domain; `RecordsAccumulate` gives the count for any record a
    plan writes and never deletes.
- **IPv6 prefixes that are not a multiple of 4.** Reverse-zone delegation
  normally uses the enclosing nibble boundary, floor(prefix/4) nibbles.
  - The code's cut `(128 - prefix) / 4 * 2 + 1` keeps ceil(prefix/4)
    nibbles. That is a zone narrower than the network.
  - `Ip6ZoneSuffixIff` states exactly which addresses get a pointer name
    inside that zone.

## Model

| member | source | states |
|---|---|---|
| Text.FilterAlnum | src/lib/virtual_machine.py:21-22 | the filtered group keeps only characters of the alphanumeric set, all taken from the group, and is no longer than it |
| Text.FilterAlnumKeepsAlnum | src/lib/virtual_machine.py:21-22 | the filter drops no alphanumeric character: an all-alphanumeric label passes unchanged |
| Text.FilterAlnumChar | src/lib/virtual_machine.py:21-22 | a single character passes the filter exactly when it is in the alphanumeric set |
| Text.FilterAlnumAppend | src/lib/virtual_machine.py:22 | the filter of a concatenation is the concatenation of the filters, so it keeps the characters in their order |
| Text.FilterAlnumEmpty | src/lib/virtual_machine.py:22-23 | the filtered group is empty exactly when the group has no alphanumeric character |
| Text.JoinSplit | src/lib/virtual_machine.py:72-75 | joining the parts of a split gives back the original text |
| Text.SplitJoin | src/lib/virtual_machine.py:72-75 | splitting a join of separator-free parts gives back the parts |
| Text.SplitCount | src/lib/virtual_machine.py:72 | the address contains a dot exactly when it splits into at least two labels |
| VirtualMachine.Ip4Ptr | src/lib/virtual_machine.py:72-75 | definition: the address's dot-separated labels reversed, joined by dots, under in-addr.arpa; properties in Ip4PtrInZone, Ip4DottedQuad and Ip4PtrRoundTrip |
| VirtualMachine.Ip4PtrZone | src/lib/virtual_machine.py:72-74 | definition: the reversed labels without the first, joined by dots, under in-addr.arpa; properties in Ip4PtrInZone, Ip4PtrNoDot and Ip4DottedQuad |
| VirtualMachine.Ip4PtrInZone | src/lib/virtual_machine.py:72-75 | for an address with a dot, `ip4_ptr` is its last label, a dot and `ip4_ptr_zone`, so it ends in "." + zone |
| VirtualMachine.Ip4PtrNoDot | src/lib/virtual_machine.py:72-75 | an address without a dot yields itself under in-addr.arpa, in the bare in-addr.arpa zone |
| VirtualMachine.Ip4DottedQuad | src/lib/virtual_machine.py:72-75 | a.b.c.d gives pointer d.c.b.a.in-addr.arpa in zone c.b.a.in-addr.arpa |
| VirtualMachine.Ip4PtrRoundTrip | src/lib/virtual_machine.py:72-75 | reversing the pointer name's labels again gives back the address |
| VirtualMachine.KeptNibbles | src/lib/virtual_machine.py:83 | the nibble count the cut leaves is prefix/4 rounded up (never more than 32) |
| VirtualMachine.Ip6Ptr | src/lib/virtual_machine.py:86 | definition: the address's `reverse_pointer`; properties in Ip6PtrIsReverseName and Ip6ZoneSuffixIff |
| VirtualMachine.Ip6NetworkReversePointer | src/lib/virtual_machine.py:84 | definition: the network's `reverse_pointer` text, one label per character of the reversed prefix digits, the `/` and the reversed nibbles; properties in NetworkPointerSplit |
| VirtualMachine.Ip6PtrZone | src/lib/virtual_machine.py:82-85 | definition: the second `/`-part of the network's reverse pointer with the first `pref_cut` characters cut; properties in Ip6PtrZoneIsReverseName, Ip6ZoneSuffixIff and Ip6ZoneAligned |
| VirtualMachine.HostBitsRejected | src/lib/virtual_machine.py:84 | a /64 network with a host bit set is not a valid strict network, so the constructor fails on it |
| VirtualMachine.Ip6PtrIsReverseName | src/lib/virtual_machine.py:86 | the address's reverse pointer is its nibbles, least significant first, one label each, under ip6.arpa |
| VirtualMachine.NetworkPointerSplit | src/lib/virtual_machine.py:84-85 | the network's reverse pointer splits at `/` into exactly two parts, the second being "." and the reverse name of all network nibbles |
| VirtualMachine.DropLabels | src/lib/virtual_machine.py:85 | cutting 2k characters from a reverse name removes exactly its first k nibble labels |
| VirtualMachine.Ip6PtrZoneIsReverseName | src/lib/virtual_machine.py:82-85 | `ip6_ptr_zone` is the reverse name of the first ceil(prefix/4) network nibbles |
| VirtualMachine.Ip6ZoneSuffixIff | src/lib/virtual_machine.py:82-86 | the zone ends the address's pointer name if and only if the address agrees with the network on the first ceil(prefix/4) nibbles |
| VirtualMachine.Ip6ZoneAligned | src/lib/virtual_machine.py:82-86 | with a prefix that is a multiple of 4, every address inside the network has its pointer name in the zone |
| VirtualMachine.GroupFqdn | src/lib/virtual_machine.py:19-28 | the alias is None exactly when the group is absent or has no alphanumeric character |
| VirtualMachine.GroupFqdnShape | src/lib/virtual_machine.py:21-24 | the alias starts with the lower-cased filtered group, which is non-empty and in [a-z0-9], followed by "-"; it ends in "." + zone; and everything before that suffix is in [a-z0-9-] when the account uuid is |
| VirtualMachine.NewVirtualMachine | src/lib/virtual_machine.py:5-54 | the constructor fails exactly when there is no NIC, an IPv6 address comes without `ip6cidr`, or the address library rejects it; otherwise name and uuid are lower-cased, domain is the lower-cased lookup, fqdn is name + "." + domain (written "None" when absent), group is the `group` key, ip4 is the NIC's `ipaddress`, ip6 is the NIC's `ip6address` and ip6_cidr its `ip6cidr` when that is present (None otherwise), the IPv4 PTR pair is (`Ip4Ptr`, `Ip4PtrZone`) of a non-empty ip4 and None otherwise, and the IPv6 PTR pair is set exactly when ip6 is present with non-empty text, and then it is (`Ip6Ptr`, `Ip6PtrZone`) of a valid address and a valid strict network |
| VirtualMachine.VmReverseNames | src/lib/virtual_machine.py:65-86 | a constructed VM's IPv4 pointer lies in its IPv4 zone, and with an aligned prefix its IPv6 pointer lies in its IPv6 zone |
| Tables.Exec | src/exporter.py:84-93 | definition of the effect of one statement: `DELETE` by name or by name and content, `REPLACE INTO records` under the `ReplaceKey`, `INSERT IGNORE` with NULL-aware collision, `DELETE FROM cs_mapping` by uuid; properties in the Tables lemmas below |
| Tables.Run | src/exporter.py:171-187 | definition: the statements of a plan applied in order; properties in RunAppend, MappingPersists and WrittenRecordsRemain |
| Tables.WrittenRecordsRemain | src/exporter.py:84-87 | every record a plan writes is in `records` after the plan when no later statement deletes it or, under the (name, type, domain_id) key, replaces it with a different record of that key |
| Tables.InsertIgnoreStores | src/exporter.py:93 | after INSERT IGNORE the row is in `cs_mapping` and `records` is unchanged |
| Tables.InsertIgnoreNullAppends | src/exporter.py:54-55 | a row with a NULL address is appended every time it is inserted |
| Tables.InsertIgnoreAddressIdempotent | src/exporter.py:102-103 | inserting a row with an address a second time changes nothing |
| Tables.MappingPersists | src/exporter.py:174-187 | a plan without a mapping delete keeps every mapping row and stores each row it inserts |
| Tables.NullRowsAccumulate | src/exporter.py:54-55 | a plan that deletes no mapping row raises the count of a NULL-address row by the number of times the plan inserts it |
| Tables.RecordsAccumulate | src/exporter.py:84-87 | without a unique key, a plan that never deletes a record raises its count by the number of times it writes it |
| Store.PowerDns.SelectDomainId | src/exporter.py:79-82 | the zone's id is found exactly when the zone is in `domains`, and it is that zone's id |
| Store.PowerDns.SelectMapping | src/exporter.py:206-207 | the fetched rows are exactly the mapping rows of the uuid, in table order |
| Store.PowerDns.DeleteRecords | src/exporter.py:213 | exactly the records of that name are removed |
| Store.PowerDns.DeleteRecordsWithContent | src/exporter.py:211 | exactly the records of that name and content are removed |
| Store.PowerDns.ReplaceRecord | src/exporter.py:84-87 | the record is present afterwards and the mapping table is unchanged |
| Store.PowerDns.InsertIgnoreMapping | src/exporter.py:93 | the row is present afterwards and `records` is unchanged |
| Store.PowerDns.DeleteMapping | src/exporter.py:214 | exactly the mapping rows of the uuid are removed |
| Exporter.CreateMatch | src/exporter.py:139-143 | definition: the event has `commandEventType` and `status`, equal to "VM.CREATE" and "SUCCEEDED" ignoring case; properties in ClassificationExclusive and CreateMatchIgnoresCase |
| Exporter.StartMatch | src/exporter.py:145-149 | definition: the same with "VM.START"; properties in ClassificationExclusive |
| Exporter.DestroyMatch | src/exporter.py:199-203 | definition: the event has `VirtualMachine`, `status` and `event`, with status "Completed" and event "VM.DESTROY" ignoring case; properties in ClassificationExclusive |
| Exporter.ClassificationExclusive | src/exporter.py:139-149 | no event is both a create and a start, and neither is also a destroy |
| Exporter.CreateMatchIgnoresCase | src/exporter.py:139-143 | "VM.Create" with "Succeeded" classifies as a create, not a start or destroy |
| Exporter.FindFrom | src/exporter.py:74 | the found index is the first occurrence of the prefix at or after the start, and none means no occurrence |
| Exporter.ExtractCreatePayload | src/exporter.py:73-74 | the payload is the job result with the first occurrence of the namespace prefix removed, or unchanged without one |
| Exporter.ExtractUnwraps | src/exporter.py:73-74 | stripping a prefixed body gives back the body |
| Exporter.ExtractRemovesOnlyFirst | src/exporter.py:74 | a second copy of the prefix stays in the payload |
| Exporter.GroupPlan | src/exporter.py:95-110 | definition: nothing without an alias; else the alias A record and its row with the IPv4 address, then with ip6 the alias AAAA record and its row with the IPv6 address; properties in AZonePlanContents and UpdateGroupAlias |
| Exporter.AZonePlan | src/exporter.py:78-110 | definition of the statements of `update_a_zone`; properties in AZonePlanWrites, AZonePlanContents and ForwardPlanMapped |
| Exporter.PtrZonePlan | src/exporter.py:113-133 | definition of the statements of `update_ptr_zone`; properties in PtrZonePlanWrites and PtrPlanMapped |
| Exporter.CreatePlan | src/exporter.py:166-187 | definition: nothing for a VM without domain or IPv4, else the pre-delete of fqdn followed by the common-zone, chosen-zone and (unless a start) PTR statements; properties in CreatePlanWrites, ForwardZoneChoice, CreatedRecordsRemain and the scenario lemmas |
| Exporter.AZonePlanWrites | src/exporter.py:78-110 | `update_a_zone` writes nothing for a zone not in `domains`; otherwise it writes the A record of name.zone and only A/AAAA records of that zone (AAAA only with ip6), each with a mapping row of the VM's uuid |
| Exporter.AZonePlanContents | src/exporter.py:84-110 | for a provisioned zone, `update_a_zone` writes the NULL-address row of name.zone, the AAAA record when ip6 is present, and with an alias its A record and row with the IPv4 address and, with ip6, its AAAA record and row with the IPv6 address; every record it writes is named name.zone or the alias with the VM's address as content, and every row it inserts is one of those |
| Exporter.PtrZonePlanWrites | src/exporter.py:113-133 | `update_ptr_zone` writes only PTR records pointing at fqdn, each with a NULL-address mapping row; it writes each zone's PTR exactly when that zone is in `domains`, and the IPv6 one only with ip6 |
| Exporter.ForwardPlanMapped | src/exporter.py:78-110 | every record `update_a_zone` writes has its mapping row, and it writes no PTR |
| Exporter.PtrPlanMapped | src/exporter.py:113-133 | every record `update_ptr_zone` writes is a PTR with a NULL-address mapping row |
| Exporter.CreatePlanWrites | src/exporter.py:166-187 | after the pre-delete of fqdn, a create writes only records of the VM that have a mapping row of its uuid, deletes no mapping row, writes PTR only when not a start and AAAA only with ip6 |
| Exporter.ForwardZoneChoice | src/exporter.py:177-183 | every forward record lies in the chosen zone (`ChosenZone`: the network domain if set, else the VM's domain) or, only when the flag is exactly "true", in the common zone; the A record is written in each such zone that is provisioned |
| Exporter.CreatedRecordsRemain | src/exporter.py:173-187 | on any tables, every record a create writes is in `records` afterwards: always without a unique key, and under the (name, type, domain_id) key when no two of its records share a key |
| Exporter.NetworkDomainOverrides | src/exporter.py:180-183 | with a network domain set, no forward record lands in the VM's own domain (unless it is the common zone) |
| Exporter.PtrOnlyOnCreate | src/exporter.py:185-187 | a start writes no PTR; a create writes the IPv4 PTR when its zone is provisioned |
| Exporter.CreateIpv4OnlyScenario | src/exporter.py:166-187 | an IPv4-only VM without group, common zone or network domain gets exactly: pre-delete, A record, its mapping row, and on create its PTR and mapping row |
| Exporter.CreateIpv4OnlyTables | src/exporter.py:166-187 | the same create run on empty tables leaves exactly the A record and its NULL-address row, plus on a create the PTR record and its NULL-address row |
| Exporter.RowDelete | src/exporter.py:210-213 | definition: by name and content for a row with a non-empty address, by name otherwise; properties in RunDeletes and DestroyEffect |
| Exporter.DestroyPlan | src/exporter.py:206-214 | definition: one delete per mapping row of the uuid in table order, then the mapping delete; properties in DestroyEffect and CreateThenDestroy |
| Exporter.RunDeletes | src/exporter.py:208-213 | the per-row deletes remove exactly the records some row names and leave `cs_mapping` unchanged |
| Exporter.DestroyEffect | src/exporter.py:204-214 | after the destroy branch no mapping row of the uuid is left, other rows stay, and a record is removed exactly when a row of the uuid names it (by name and content for a row with an address, by name for a NULL row) |
| Exporter.CreateThenDestroy | src/exporter.py:136-214 | a destroy after a create removes every record the create wrote and every mapping row of the VM |
| Exporter.ReplayDuplicatesMappingRows | src/exporter.py:93 | replaying a create adds the NULL-address forward mapping row again |
| Exporter.ReplayDuplicatesRecords | src/exporter.py:174-181 | without a unique key, replaying a create under a network domain other than the VM's domain duplicates the forward A record |
| Exporter.WriteMapped | src/exporter.py:98-103 | the tables end as writing the record and then inserting its mapping row leaves them |
| Exporter.UpdateGroupAlias | src/exporter.py:95-110 | the tables end as running the group-alias plan (A and mapping row with the IPv4 address, then AAAA and mapping row with the IPv6 address when present) leaves them |
| Exporter.CreateWritesMapped | src/exporter.py:176-187 | every record written after the pre-delete has a mapping row of the VM's uuid; PTR records only on a create, with a NULL-address row; AAAA only with ip6 |
| Exporter.UpdateAZone | src/exporter.py:78-110 | the tables end as running the `update_a_zone` plan leaves them |
| Exporter.UpdatePtr | src/exporter.py:114-122 | the tables end as running the PTR plan for one reverse name leaves them |
| Exporter.UpdatePtrZone | src/exporter.py:113-133 | the tables end as running the `update_ptr_zone` plan leaves them |
| Exporter.CreateNewRecords | src/exporter.py:136-190 | an event that is neither create nor start is ignored; a failing payload or VM aborts; a VM without domain or IPv4 is skipped, all three leaving the tables unchanged; otherwise the tables end as running the create plan leaves them |
| Exporter.ApplyCreate | src/exporter.py:171-187 | the tables end as running the create plan (pre-delete, common zone, chosen zone, PTRs unless a start) leaves them |
| Exporter.DeleteRemovedRecords | src/exporter.py:193-216 | a non-destroy event leaves the tables unchanged; otherwise they end as running the per-row deletes and the mapping delete leaves them |

## Left out

- The Kafka consumer, its polling loop and offset commits (`src/exporter.py:61-66`, `230-249`): transport plumbing.
- The `monitor` watchdog, its queue and `SIGKILL` (`src/exporter.py:219-227`): concurrency and process termination.
- MySQL connection handling, transaction commit and the `CREATE TABLE` statement (`src/exporter.py:45-59`, `171`, `189-190`, `205`, `215-216`): only the table semantics are modelled. Each event's statements are modelled as applied in order with nothing in between.
- The CloudStack `listAccounts` and `listDomains` calls (`src/lib/account.py`, `src/lib/virtual_machine.py:37-42`): their answers are inputs (`Account`, `domainLookup`). Their exceptions are not modelled. `src/lib/account.py` is not part of this model.
- `json.loads` (`src/exporter.py:75`): a parameter `decode` of `CreateNewRecords`. A decoding failure is the `MalformedPayload` abort.
- Logging and `dump()` (`src/lib/virtual_machine.py:56-63`), environment loading (`src/exporter.py:24-42`), and the TTL, prio, change_date, ordername and auth columns: they carry no logic.
- Text.Lower: lower-cases ASCII letters only, where Python 2's `lower()` also folds other letters of `unicode` strings.
- VirtualMachine.NewVirtualMachine: takes the address library's parse as given. An `Ip6Address` or `Ip6Network` carries its exploded nibbles next to its text, and the link between the text and the nibbles is not checked. `Ip6Rejected` (the `InvalidIp6` failure) holds for a non-empty address with a cidr exactly when the nibbles are malformed, the prefix exceeds 128, or the network has host bits set (`ValidNetwork`, `HostBitsRejected`). A `ValueError` for malformed address or network text, and the `int()` parse of the prefix text, are not modelled.
- VirtualMachine.NewVirtualMachine: JSON `null` values in the VM description (a null `group` or `ipaddress` key) are treated like absent keys.
- Exporter.ReplayDuplicatesRecords: stated only under `NoUniqueKey`. With a (name, type, domain_id) unique key, `REPLACE INTO` replaces the record instead.
- MySQL's case-insensitive collation and column truncation (`CHAR(36)`, `VARCHAR(255)`, `CHAR(39)`) are not modelled: column comparison is exact string equality.
