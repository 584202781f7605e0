/**
 * The exporter's handling of one CloudStack event: classification, the
 * statements written for a VM create/start and the deletions for a VM destroy.
 *
 * Each writer is a method issuing statements on a PowerDns object; what it
 * issues is given by a plan function (a sequence of Stmt) and the method's
 * postcondition says the tables end as running that plan leaves them.  The
 * properties the exporter promises are proved about the plans.
 */
module Exporter {
  import opened Wrappers
  import opened Text
  import opened VirtualMachine
  import opened Tables
  import opened Store

  /** A decoded event message: its top-level string fields. */
  type Event = map<string, string>

  /** The two settings that steer zone choice: DNS_COMMON_ZONE and DNS_ADD_TO_COMMON_ZONE. */
  datatype Settings = Settings(commonZone: string, addToCommonZone: string)

  // ---------------------------------------------------------------------------
  // Classification
  // ---------------------------------------------------------------------------

  /** `create_match`: a successful VM.CREATE command, compared case-insensitively. */
  predicate CreateMatch(m: Event) {
    && "commandEventType" in m && "status" in m
    && EqualsIgnoreCase(m["commandEventType"], "VM.CREATE")
    && EqualsIgnoreCase(m["status"], "SUCCEEDED")
  }

  /** `start_match`: a successful VM.START command. */
  predicate StartMatch(m: Event) {
    && "commandEventType" in m && "status" in m
    && EqualsIgnoreCase(m["commandEventType"], "VM.START")
    && EqualsIgnoreCase(m["status"], "SUCCEEDED")
  }

  /** The guard of `delete_removed_records`: a completed VM.DESTROY notification. */
  predicate DestroyMatch(m: Event) {
    && "VirtualMachine" in m && "status" in m && "event" in m
    && EqualsIgnoreCase(m["status"], "Completed")
    && EqualsIgnoreCase(m["event"], "VM.DESTROY")
  }

  /** No event is both a create and a start, and no create or start is also a destroy. */
  lemma ClassificationExclusive(m: Event)
    ensures !(CreateMatch(m) && StartMatch(m))
    ensures !(CreateMatch(m) && DestroyMatch(m))
    ensures !(StartMatch(m) && DestroyMatch(m))
  {
    assert |Lower("VM.CREATE")| != |Lower("VM.START")|;
    assert Lower("SUCCEEDED")[0] != Lower("Completed")[0];
  }

  /** Letter case does not matter: "VM.Create" with "Succeeded" is a create and not a start. */
  lemma CreateMatchIgnoresCase(m: Event)
    requires "commandEventType" in m && m["commandEventType"] == "VM.Create"
    requires "status" in m && m["status"] == "Succeeded"
    ensures CreateMatch(m) && !StartMatch(m) && !DestroyMatch(m)
  {
    assert Lower("VM.Create") == Lower("VM.CREATE");
    assert Lower("Succeeded") == Lower("SUCCEEDED");
    ClassificationExclusive(m);
  }

  // ---------------------------------------------------------------------------
  // Job result payload
  // ---------------------------------------------------------------------------

  /** The namespace key that wraps the VM description in a VM.CREATE job result. */
  const PayloadPrefix: string := "org.apache.cloudstack.api.response.UserVmResponse/virtualmachine/"

  predicate OccursAt(s: string, p: string, i: nat) {
    i + |p| <= |s| && s[i..i + |p|] == p
  }

  /** The first index at or after `from` where `p` occurs in `s`, as `str.find` searches. */
  function FindFrom(s: string, p: string, from: nat): (r: Option<nat>)
    decreases |s| - from
    ensures r.Some? ==> from <= r.value && OccursAt(s, p, r.value)
    ensures r.Some? ==> forall i :: from <= i < r.value ==> !OccursAt(s, p, i)
    ensures r.None? ==> forall i :: from <= i ==> !OccursAt(s, p, i)
  {
    if from + |p| > |s| then None
    else if s[from..from + |p|] == p then Some(from)
    else FindFrom(s, p, from + 1)
  }

  /** `extract_create_payload` before JSON decoding: `replace(PayloadPrefix, "", 1)`. */
  function ExtractCreatePayload(jobResult: string): (r: string)
    ensures FindFrom(jobResult, PayloadPrefix, 0).None? ==> r == jobResult
    ensures FindFrom(jobResult, PayloadPrefix, 0).Some? ==>
      var i := FindFrom(jobResult, PayloadPrefix, 0).value;
      |r| == |jobResult| - |PayloadPrefix| && r == jobResult[..i] + jobResult[i + |PayloadPrefix|..]
  {
    match FindFrom(jobResult, PayloadPrefix, 0)
    case None => jobResult
    case Some(i) => jobResult[..i] + jobResult[i + |PayloadPrefix|..]
  }

  /** Unwrapping a wrapped description gives it back, even if it mentions the prefix itself. */
  lemma ExtractUnwraps(body: string)
    ensures ExtractCreatePayload(PayloadPrefix + body) == body
  {
    var s := PayloadPrefix + body;
    assert OccursAt(s, PayloadPrefix, 0);
    assert s[|PayloadPrefix|..] == body;
  }

  /** Only the first occurrence goes: a second copy of the prefix stays in the payload. */
  lemma ExtractRemovesOnlyFirst(body: string)
    ensures ExtractCreatePayload(PayloadPrefix + PayloadPrefix + body) == PayloadPrefix + body
  {
    ExtractUnwraps(PayloadPrefix + body);
    assert PayloadPrefix + PayloadPrefix + body == PayloadPrefix + (PayloadPrefix + body);
  }

  // ---------------------------------------------------------------------------
  // Plans of update_a_zone, update_ptr_zone and create_new_records
  // ---------------------------------------------------------------------------

  /** The group-alias statements of `update_a_zone` for a zone with id `id`. */
  function GroupPlan(account: Account, vm: Vm, zone: string, id: int): seq<Stmt>
    requires vm.ip4.Some?
  {
    match GroupFqdn(vm.group, account.uuid, zone)
    case None => []
    case Some(g) =>
      [Replace(Record(g, A, vm.ip4.value, id)), InsertIgnore(MappingRow(vm.uuid, g, Some(vm.ip4.value)))]
      + (if vm.ip6.Some? then
           [Replace(Record(g, AAAA, vm.ip6.value.text, id)), InsertIgnore(MappingRow(vm.uuid, g, Some(vm.ip6.value.text)))]
         else [])
  }

  /** The statements of `update_a_zone`: A, AAAA, their mapping row, then the group alias. */
  function AZonePlan(domains: map<string, int>, account: Account, vm: Vm, zone: string): seq<Stmt>
    requires vm.ip4.Some?
  {
    if zone !in domains then []
    else
      var id := domains[zone];
      var fqdn := vm.name + "." + zone;
      [Replace(Record(fqdn, A, vm.ip4.value, id))]
      + (if vm.ip6.Some? then [Replace(Record(fqdn, AAAA, vm.ip6.value.text, id))] else [])
      + [InsertIgnore(MappingRow(vm.uuid, fqdn, None))]
      + GroupPlan(account, vm, zone, id)
  }

  /** The PTR statements for one reverse name, if its zone is provisioned. */
  function PtrPlan(domains: map<string, int>, vm: Vm, names: Option<PtrNames>): seq<Stmt> {
    if names.Some? && names.value.zone in domains then
      [Replace(Record(names.value.ptr, PTR, vm.fqdn, domains[names.value.zone])),
       InsertIgnore(MappingRow(vm.uuid, names.value.ptr, None))]
    else []
  }

  /** The statements of `update_ptr_zone`: the IPv4 PTR, then the IPv6 PTR when the VM has IPv6. */
  function PtrZonePlan(domains: map<string, int>, vm: Vm): seq<Stmt> {
    PtrPlan(domains, vm, vm.ip4Ptr) + (if vm.ip6.Some? then PtrPlan(domains, vm, vm.ip6Ptr) else [])
  }

  /** The guard of `create_new_records`: the VM has a domain and an IPv4 address. */
  predicate Synchronizable(vm: Vm) {
    Truthy(vm.domain) && Truthy(vm.ip4)
  }

  /** The zone of the forward records: the account's network domain if set, else the VM's domain. */
  function ChosenZone(account: Account, vm: Vm): string
    requires Truthy(vm.domain)
  {
    if Truthy(account.networkDomain) then account.networkDomain.value else vm.domain.value
  }

  /** What `create_new_records` writes after its pre-delete, in order. */
  function CreateWrites(domains: map<string, int>, settings: Settings, account: Account, vm: Vm, isStart: bool): seq<Stmt>
    requires Synchronizable(vm)
  {
    (if settings.addToCommonZone == "true" then AZonePlan(domains, account, vm, settings.commonZone) else [])
    + AZonePlan(domains, account, vm, ChosenZone(account, vm))
    + (if isStart then [] else PtrZonePlan(domains, vm))
  }

  /** The statements of `create_new_records` once the VM is resolved: the pre-delete of fqdn, then the writes. */
  function CreatePlan(domains: map<string, int>, settings: Settings, account: Account, vm: Vm, isStart: bool): seq<Stmt> {
    if !Synchronizable(vm) then []
    else [DeleteByName(vm.fqdn)] + CreateWrites(domains, settings, account, vm, isStart)
  }

  // ---------------------------------------------------------------------------
  // What the plans write
  // ---------------------------------------------------------------------------

  /** The record belongs to the zone: it carries the zone's id and its name ends in `.zone`. */
  predicate InZone(r: Record, zone: string, domains: map<string, int>) {
    zone in domains && r.domainId == domains[zone] && EndsWith(r.name, "." + zone)
  }

  /** The mapping row the exporter pairs with a record: by name only, or by name and address. */
  predicate MappedIn(plan: seq<Stmt>, uuid: string, r: Record) {
    InsertIgnore(MappingRow(uuid, r.name, None)) in plan
    || InsertIgnore(MappingRow(uuid, r.name, Some(r.content))) in plan
  }

  lemma EndsWithZone(name: string, zone: string)
    ensures EndsWith(name + "." + zone, "." + zone)
  {
    var s := name + "." + zone;
    assert s == name + ("." + zone);
    assert s[|s| - |"." + zone|..] == "." + zone;
  }

  /**
   * `update_a_zone` writes only A and AAAA records of the zone, AAAA only for
   * a VM with IPv6, each with its mapping row (NULL address for the VM's own
   * name, the record's address for the group alias); it issues nothing for a
   * zone missing from `domains` and otherwise writes the VM's A record.
   */
  lemma AZonePlanWrites(domains: map<string, int>, account: Account, vm: Vm, zone: string)
    requires vm.ip4.Some?
    ensures var plan := AZonePlan(domains, account, vm, zone);
      && (zone !in domains ==> plan == [])
      && (zone in domains ==> Replace(Record(vm.name + "." + zone, A, vm.ip4.value, domains[zone])) in plan)
      && (forall s :: s in plan ==> s.Replace? || s.InsertIgnore?)
      && (forall s :: s in plan && s.InsertIgnore? ==> s.row.uuid == vm.uuid)
      && (forall r :: Replace(r) in plan ==>
            && r.rtype != PTR && InZone(r, zone, domains)
            && (r.rtype == AAAA ==> vm.ip6.Some?)
            && MappedIn(plan, vm.uuid, r))
  {
    if zone in domains {
      var id := domains[zone];
      var fqdn := vm.name + "." + zone;
      EndsWithZone(vm.name, zone);
      var g := GroupFqdn(vm.group, account.uuid, zone);
      if g.Some? {
        GroupFqdnShape(vm.group, account.uuid, zone);
      }
    }
  }

  /**
   * What `update_a_zone` writes in a provisioned zone, statement by
   * statement: A (and AAAA with ip6) of name.zone with a NULL-address mapping
   * row, and for a group alias its A (and AAAA) with mapping rows carrying
   * the address; every A record holds ip4 and every AAAA record the IPv6 text,
   * and nothing else is written.
   */
  lemma AZonePlanContents(domains: map<string, int>, account: Account, vm: Vm, zone: string)
    requires vm.ip4.Some? && zone in domains
    ensures var plan := AZonePlan(domains, account, vm, zone);
      var id := domains[zone];
      var fqdn := vm.name + "." + zone;
      var alias := GroupFqdn(vm.group, account.uuid, zone);
      && InsertIgnore(MappingRow(vm.uuid, fqdn, None)) in plan
      && (vm.ip6.Some? ==> Replace(Record(fqdn, AAAA, vm.ip6.value.text, id)) in plan)
      && (alias.Some? ==>
            && Replace(Record(alias.value, A, vm.ip4.value, id)) in plan
            && InsertIgnore(MappingRow(vm.uuid, alias.value, Some(vm.ip4.value))) in plan)
      && (alias.Some? && vm.ip6.Some? ==>
            && Replace(Record(alias.value, AAAA, vm.ip6.value.text, id)) in plan
            && InsertIgnore(MappingRow(vm.uuid, alias.value, Some(vm.ip6.value.text))) in plan)
      && (forall r :: Replace(r) in plan ==>
            && (r.name == fqdn || alias == Some(r.name))
            && (r.rtype == A ==> r.content == vm.ip4.value)
            && (r.rtype == AAAA ==> vm.ip6.Some? && r.content == vm.ip6.value.text))
      && (forall row :: InsertIgnore(row) in plan ==>
            || row == MappingRow(vm.uuid, fqdn, None)
            || (alias == Some(row.record) && row.uuid == vm.uuid
                && (row.ipaddress == Some(vm.ip4.value) || (vm.ip6.Some? && row.ipaddress == Some(vm.ip6.value.text)))))
  {
  }

  /**
   * `update_ptr_zone` writes only PTR records pointing at the VM's fqdn, each
   * with a NULL-address mapping row, and each reverse zone independently:
   * the IPv4 pointer when its zone is provisioned, the IPv6 pointer when the
   * VM has IPv6 and its zone is provisioned.
   */
  lemma PtrZonePlanWrites(domains: map<string, int>, vm: Vm)
    ensures var plan := PtrZonePlan(domains, vm);
      && (forall s :: s in plan ==> s.Replace? || s.InsertIgnore?)
      && (forall s :: s in plan && s.InsertIgnore? ==> s.row.uuid == vm.uuid)
      && (forall r :: Replace(r) in plan ==>
            && r.rtype == PTR && r.content == vm.fqdn
            && InsertIgnore(MappingRow(vm.uuid, r.name, None)) in plan
            && ((vm.ip4Ptr.Some? && r.name == vm.ip4Ptr.value.ptr && InZoneId(r, vm.ip4Ptr.value.zone, domains))
                || (vm.ip6.Some? && vm.ip6Ptr.Some? && r.name == vm.ip6Ptr.value.ptr && InZoneId(r, vm.ip6Ptr.value.zone, domains))))
      && (vm.ip4Ptr.Some? && vm.ip4Ptr.value.zone in domains ==>
            Replace(Record(vm.ip4Ptr.value.ptr, PTR, vm.fqdn, domains[vm.ip4Ptr.value.zone])) in plan)
      && (vm.ip6.Some? && vm.ip6Ptr.Some? && vm.ip6Ptr.value.zone in domains ==>
            Replace(Record(vm.ip6Ptr.value.ptr, PTR, vm.fqdn, domains[vm.ip6Ptr.value.zone])) in plan)
  {
  }

  /** The record carries the id of a provisioned zone. */
  predicate InZoneId(r: Record, zone: string, domains: map<string, int>) {
    zone in domains && r.domainId == domains[zone]
  }

  /** The plan only writes records and mapping rows of the uuid, each record with its mapping row. */
  ghost predicate WritesMapped(plan: seq<Stmt>, uuid: string) {
    && (forall s :: s in plan ==> s.Replace? || s.InsertIgnore?)
    && (forall s :: s in plan && s.InsertIgnore? ==> s.row.uuid == uuid)
    && (forall r :: Replace(r) in plan ==> MappedIn(plan, uuid, r))
  }

  lemma WritesMappedAppend(p: seq<Stmt>, q: seq<Stmt>, uuid: string)
    requires WritesMapped(p, uuid) && WritesMapped(q, uuid)
    ensures WritesMapped(p + q, uuid)
  {
    forall r | Replace(r) in p + q ensures MappedIn(p + q, uuid, r) {
      if Replace(r) in p {
        assert MappedIn(p, uuid, r);
      } else {
        assert MappedIn(q, uuid, r);
      }
    }
  }

  lemma ForwardPlanMapped(domains: map<string, int>, account: Account, vm: Vm, zone: string)
    requires vm.ip4.Some?
    ensures WritesMapped(AZonePlan(domains, account, vm, zone), vm.uuid)
    ensures forall r :: Replace(r) in AZonePlan(domains, account, vm, zone) ==>
      r.rtype != PTR && (r.rtype == AAAA ==> vm.ip6.Some?)
  {
    AZonePlanWrites(domains, account, vm, zone);
  }

  lemma PtrPlanMapped(domains: map<string, int>, vm: Vm)
    ensures WritesMapped(PtrZonePlan(domains, vm), vm.uuid)
    ensures forall r :: Replace(r) in PtrZonePlan(domains, vm) ==>
      r.rtype == PTR && InsertIgnore(MappingRow(vm.uuid, r.name, None)) in PtrZonePlan(domains, vm)
  {
    PtrZonePlanWrites(domains, vm);
  }

  lemma CreateWritesMapped(domains: map<string, int>, settings: Settings, account: Account, vm: Vm, isStart: bool)
    requires Synchronizable(vm)
    ensures var rest := CreateWrites(domains, settings, account, vm, isStart);
      && WritesMapped(rest, vm.uuid)
      && (forall r :: Replace(r) in rest && r.rtype == PTR ==> !isStart && InsertIgnore(MappingRow(vm.uuid, r.name, None)) in rest)
      && (forall r :: Replace(r) in rest && r.rtype == AAAA ==> vm.ip6.Some?)
  {
    var common := if settings.addToCommonZone == "true" then AZonePlan(domains, account, vm, settings.commonZone) else [];
    var chosen := AZonePlan(domains, account, vm, ChosenZone(account, vm));
    var ptr := if isStart then [] else PtrZonePlan(domains, vm);
    ForwardPlanMapped(domains, account, vm, settings.commonZone);
    ForwardPlanMapped(domains, account, vm, ChosenZone(account, vm));
    PtrPlanMapped(domains, vm);
    WritesMappedAppend(common, chosen, vm.uuid);
    WritesMappedAppend(common + chosen, ptr, vm.uuid);
    assert forall r :: Replace(r) in ptr ==> r.rtype == PTR;
  }

  /**
   * `create_new_records` writes only what `update_a_zone` and
   * `update_ptr_zone` write after the pre-delete: every record with a mapping
   * row for the VM's uuid, no mapping row deleted, AAAA records only for a VM
   * with IPv6 and PTR records only when the event is not a start.
   */
  lemma CreatePlanWrites(domains: map<string, int>, settings: Settings, account: Account, vm: Vm, isStart: bool)
    ensures var plan := CreatePlan(domains, settings, account, vm, isStart);
      && KeepsMapping(plan)
      && (forall s :: s in plan && s.DeleteByName? ==> s == DeleteByName(vm.fqdn))
      && (forall s :: s in plan ==> !s.DeleteByNameContent?)
      && (forall s :: s in plan && s.InsertIgnore? ==> s.row.uuid == vm.uuid)
      && (forall r :: Replace(r) in plan ==> MappedIn(plan, vm.uuid, r))
      && (forall r :: Replace(r) in plan && r.rtype == PTR ==> !isStart && InsertIgnore(MappingRow(vm.uuid, r.name, None)) in plan)
      && (forall r :: Replace(r) in plan && r.rtype == AAAA ==> vm.ip6.Some?)
  {
    if Synchronizable(vm) {
      var plan := CreatePlan(domains, settings, account, vm, isStart);
      var rest := CreateWrites(domains, settings, account, vm, isStart);
      CreateWritesMapped(domains, settings, account, vm, isStart);
      forall r | Replace(r) in plan ensures MappedIn(plan, vm.uuid, r) {
        assert MappedIn(rest, vm.uuid, r);
      }
    }
  }

  /** No two records the plan writes share the (name, type, domain_id) key unless they are equal. */
  ghost predicate KeyConsistent(plan: seq<Stmt>) {
    forall a, b :: Replace(a) in plan && Replace(b) in plan && SameKey(a, b) ==> a == b
  }

  /**
   * Every record a create writes is in `records` afterwards: the pre-delete
   * runs before the writes and nothing later removes them.  Under the
   * (name, type, domain_id) key this needs the written records not to clash
   * on their key.
   */
  lemma CreatedRecordsRemain(t: Tables, domains: map<string, int>, settings: Settings, account: Account, vm: Vm,
                             isStart: bool, key: ReplaceKey)
    requires key == NoUniqueKey || KeyConsistent(CreatePlan(domains, settings, account, vm, isStart))
    ensures var plan := CreatePlan(domains, settings, account, vm, isStart);
      forall r :: Replace(r) in plan ==> r in Run(t, plan, key).records
  {
    if Synchronizable(vm) {
      var plan := CreatePlan(domains, settings, account, vm, isStart);
      var rest := CreateWrites(domains, settings, account, vm, isStart);
      CreateWritesMapped(domains, settings, account, vm, isStart);
      forall i, j | 0 <= i < j < |plan| && plan[i].Replace?
        ensures KeepsRecord(plan[j], plan[i].rec, key)
      {
        assert plan[j] == rest[j - 1];
        assert plan[j] in rest;
        assert plan[i] in plan;
      }
      WrittenRecordsRemain(t, plan, key);
    }
  }

  /**
   * Forward records go to exactly one of the account's network domain and
   * the VM's domain, plus the common zone only when the flag is exactly
   * "true"; the VM's A record is written in each of those zones that is
   * provisioned.
   */
  lemma ForwardZoneChoice(domains: map<string, int>, settings: Settings, account: Account, vm: Vm, isStart: bool)
    requires Synchronizable(vm)
    ensures var plan := CreatePlan(domains, settings, account, vm, isStart);
      var zone := ChosenZone(account, vm);
      && (forall r :: Replace(r) in plan && r.rtype != PTR ==>
            InZone(r, zone, domains) || (settings.addToCommonZone == "true" && InZone(r, settings.commonZone, domains)))
      && (zone in domains ==> Replace(Record(vm.name + "." + zone, A, vm.ip4.value, domains[zone])) in plan)
      && (settings.addToCommonZone == "true" && settings.commonZone in domains ==>
            Replace(Record(vm.name + "." + settings.commonZone, A, vm.ip4.value, domains[settings.commonZone])) in plan)
  {
    var zone := ChosenZone(account, vm);
    var plan := CreatePlan(domains, settings, account, vm, isStart);
    var common := if settings.addToCommonZone == "true" then AZonePlan(domains, account, vm, settings.commonZone) else [];
    var chosen := AZonePlan(domains, account, vm, zone);
    var ptr := if isStart then [] else PtrZonePlan(domains, vm);
    assert plan == [DeleteByName(vm.fqdn)] + CreateWrites(domains, settings, account, vm, isStart);
    assert CreateWrites(domains, settings, account, vm, isStart) == common + chosen + ptr;
    assert forall s :: s in plan <==> s == DeleteByName(vm.fqdn) || s in common || s in chosen || s in ptr;
    AZonePlanWrites(domains, account, vm, settings.commonZone);
    AZonePlanWrites(domains, account, vm, zone);
    PtrZonePlanWrites(domains, vm);
  }

  /** No two zones share an id, as `domains.id` is a key. */
  predicate DistinctIds(domains: map<string, int>) {
    forall a, b :: a in domains && b in domains && a != b ==> domains[a] != domains[b]
  }

  /**
   * An account network domain overrides the VM's own domain: no forward
   * record lands in the VM's domain unless it is also the common zone.
   */
  lemma NetworkDomainOverrides(domains: map<string, int>, settings: Settings, account: Account, vm: Vm, isStart: bool)
    requires Synchronizable(vm) && Truthy(account.networkDomain)
    requires account.networkDomain.value != vm.domain.value
    requires !(settings.addToCommonZone == "true" && settings.commonZone == vm.domain.value)
    requires DistinctIds(domains)
    ensures forall r :: Replace(r) in CreatePlan(domains, settings, account, vm, isStart) && r.rtype != PTR ==>
      !InZoneId(r, vm.domain.value, domains)
  {
    ForwardZoneChoice(domains, settings, account, vm, isStart);
  }

  /** A start writes no PTR record; a create writes the IPv4 PTR when its reverse zone is provisioned. */
  lemma PtrOnlyOnCreate(domains: map<string, int>, settings: Settings, account: Account, vm: Vm, isStart: bool)
    requires Synchronizable(vm)
    ensures isStart ==> forall r :: Replace(r) in CreatePlan(domains, settings, account, vm, isStart) ==> r.rtype != PTR
    ensures !isStart && vm.ip4Ptr.Some? && vm.ip4Ptr.value.zone in domains ==>
      Replace(Record(vm.ip4Ptr.value.ptr, PTR, vm.fqdn, domains[vm.ip4Ptr.value.zone])) in CreatePlan(domains, settings, account, vm, isStart)
  {
    CreatePlanWrites(domains, settings, account, vm, isStart);
    if !isStart {
      var plan := CreatePlan(domains, settings, account, vm, isStart);
      var common := if settings.addToCommonZone == "true" then AZonePlan(domains, account, vm, settings.commonZone) else [];
      var chosen := AZonePlan(domains, account, vm, ChosenZone(account, vm));
      assert plan == [DeleteByName(vm.fqdn)] + CreateWrites(domains, settings, account, vm, isStart);
      assert CreateWrites(domains, settings, account, vm, isStart) == common + chosen + PtrZonePlan(domains, vm);
      PtrZonePlanWrites(domains, vm);
    }
  }

  /**
   * The create of a VM with an IPv4 address only, no group, no common zone
   * and no network domain writes its A record, its PTR record when created
   * (not started) and one mapping row for each, after deleting records of
   * its fqdn.
   */
  lemma CreateIpv4OnlyScenario(domains: map<string, int>, settings: Settings, account: Account, vm: Vm, isStart: bool)
    requires Synchronizable(vm) && vm.ip6.None? && vm.group.None?
    requires settings.addToCommonZone != "true" && !Truthy(account.networkDomain)
    requires vm.domain.value in domains
    requires vm.ip4Ptr.Some? && vm.ip4Ptr.value.zone in domains
    ensures var fqdn := vm.name + "." + vm.domain.value;
      var ptr := vm.ip4Ptr.value;
      CreatePlan(domains, settings, account, vm, isStart) ==
        [DeleteByName(vm.fqdn),
         Replace(Record(fqdn, A, vm.ip4.value, domains[vm.domain.value])),
         InsertIgnore(MappingRow(vm.uuid, fqdn, None))]
        + (if isStart then [] else
           [Replace(Record(ptr.ptr, PTR, vm.fqdn, domains[ptr.zone])),
            InsertIgnore(MappingRow(vm.uuid, ptr.ptr, None))])
  {
  }

  /**
   * The same scenario run on empty tables leaves exactly the A record (and
   * the PTR record on a create) and one NULL-address mapping row for each.
   */
  lemma CreateIpv4OnlyTables(domains: map<string, int>, settings: Settings, account: Account, vm: Vm,
                             isStart: bool, key: ReplaceKey)
    requires Synchronizable(vm) && vm.ip6.None? && vm.group.None?
    requires settings.addToCommonZone != "true" && !Truthy(account.networkDomain)
    requires vm.domain.value in domains
    requires vm.ip4Ptr.Some? && vm.ip4Ptr.value.zone in domains
    ensures var fqdn := vm.name + "." + vm.domain.value;
      var ptr := vm.ip4Ptr.value;
      var a := Record(fqdn, A, vm.ip4.value, domains[vm.domain.value]);
      var p := Record(ptr.ptr, PTR, vm.fqdn, domains[ptr.zone]);
      Run(Tables([], []), CreatePlan(domains, settings, account, vm, isStart), key)
        == if isStart then Tables([a], [MappingRow(vm.uuid, fqdn, None)])
           else Tables([a, p], [MappingRow(vm.uuid, fqdn, None), MappingRow(vm.uuid, ptr.ptr, None)])
  {
    var fqdn := vm.name + "." + vm.domain.value;
    var ptr := vm.ip4Ptr.value;
    var a := Record(fqdn, A, vm.ip4.value, domains[vm.domain.value]);
    var p := Record(ptr.ptr, PTR, vm.fqdn, domains[ptr.zone]);
    var row1 := MappingRow(vm.uuid, fqdn, None);
    var row2 := MappingRow(vm.uuid, ptr.ptr, None);
    CreateIpv4OnlyScenario(domains, settings, account, vm, isStart);
    var t0 := Tables([], []);
    var d := [DeleteByName(vm.fqdn)];
    var w1 := [Replace(a), InsertIgnore(row1)];
    var w2 := [Replace(p), InsertIgnore(row2)];
    assert Run(t0, d, key) == t0 by {
      RunSnoc(t0, [], DeleteByName(vm.fqdn), key);
      assert [] + d == d;
    }
    WriteFresh(t0, a, row1, key);
    assert Run(t0, w1, key) == Tables([a], [row1]) by {
      assert t0.records + [a] == [a];
      assert t0.mapping + [row1] == [row1];
    }
    RunAppend(t0, d, w1, key);
    assert Run(t0, d + w1, key) == Tables([a], [row1]);
    if isStart {
      assert CreatePlan(domains, settings, account, vm, isStart) == d + w1;
    } else {
      assert !SameKey(a, p);
      WriteFresh(Tables([a], [row1]), p, row2, key);
      assert [a] + [p] == [a, p];
      assert [row1] + [row2] == [row1, row2];
      RunAppend(t0, d + w1, w2, key);
      assert CreatePlan(domains, settings, account, vm, isStart) == d + w1 + w2;
    }
  }

  // ---------------------------------------------------------------------------
  // Plan of delete_removed_records
  // ---------------------------------------------------------------------------

  /** The delete for one mapping row: by name and content when it has an address, else by name. */
  function RowDelete(row: MappingRow): Stmt {
    if Truthy(row.ipaddress) then DeleteByNameContent(row.record, row.ipaddress.value) else DeleteByName(row.record)
  }

  function DeletesFor(rows: seq<MappingRow>): (plan: seq<Stmt>)
    ensures |plan| == |rows|
    ensures forall i :: 0 <= i < |rows| ==> plan[i] == RowDelete(rows[i])
  {
    seq(|rows|, i requires 0 <= i < |rows| => RowDelete(rows[i]))
  }

  lemma DeletesForSnoc(rows: seq<MappingRow>, i: nat)
    requires i < |rows|
    ensures DeletesFor(rows[..i + 1]) == DeletesFor(rows[..i]) + [RowDelete(rows[i])]
  {
    assert rows[..i + 1] == rows[..i] + [rows[i]];
  }

  /** The statements `delete_removed_records` issues for a VM, given the mapping table it reads. */
  function DestroyPlan(mapping: seq<MappingRow>, uuid: string): seq<Stmt> {
    DeletesFor(Filter(mapping, (m: MappingRow) => m.uuid == uuid)) + [DeleteMappingOf(uuid)]
  }

  /** The record is one the mapping row names: same name, and same content if the row has an address. */
  predicate Hits(row: MappingRow, r: Record) {
    r.name == row.record && (Truthy(row.ipaddress) ==> r.content == row.ipaddress.value)
  }

  /** Deleting for a list of rows removes exactly the records some row names, and no mapping row. */
  lemma {:induction false} RunDeletes(t: Tables, rows: seq<MappingRow>, key: ReplaceKey)
    ensures Run(t, DeletesFor(rows), key).mapping == t.mapping
    ensures forall r :: r in Run(t, DeletesFor(rows), key).records <==>
      r in t.records && forall row :: row in rows ==> !Hits(row, r)
    decreases |rows|
  {
    if rows != [] {
      var t1 := Exec(t, RowDelete(rows[0]), key);
      assert forall r :: r in t1.records <==> r in t.records && !Hits(rows[0], r);
      assert DeletesFor(rows)[1..] == DeletesFor(rows[1..]);
      RunDeletes(t1, rows[1..], key);
      assert rows == [rows[0]] + rows[1..];
    }
  }

  /**
   * After the destroy branch no mapping row of the uuid is left, and a record
   * is deleted exactly when one of the uuid's mapping rows names it: rows with
   * an address delete records of that name and content, rows without one
   * delete every record of that name, other records stay.
   */
  lemma DestroyEffect(t: Tables, uuid: string, key: ReplaceKey)
    ensures var after := Run(t, DestroyPlan(t.mapping, uuid), key);
      && (forall m :: m in after.mapping <==> m in t.mapping && m.uuid != uuid)
      && (forall r :: r in after.records <==>
            r in t.records && forall row :: row in t.mapping && row.uuid == uuid ==> !Hits(row, r))
  {
    var rows := Filter(t.mapping, (m: MappingRow) => m.uuid == uuid);
    RunDeletes(t, rows, key);
    RunSnoc(t, DeletesFor(rows), DeleteMappingOf(uuid), key);
  }

  /**
   * Create followed by destroy of the same VM: every record the create wrote
   * is gone and no mapping row of the VM is left.
   */
  lemma CreateThenDestroy(t: Tables, domains: map<string, int>, settings: Settings, account: Account, vm: Vm,
                          isStart: bool, key: ReplaceKey)
    ensures var plan := CreatePlan(domains, settings, account, vm, isStart);
      var created := Run(t, plan, key);
      var destroyed := Run(created, DestroyPlan(created.mapping, vm.uuid), key);
      && (forall r :: Replace(r) in plan ==> r !in destroyed.records)
      && (forall m :: m in destroyed.mapping ==> m.uuid != vm.uuid)
  {
    var plan := CreatePlan(domains, settings, account, vm, isStart);
    var created := Run(t, plan, key);
    CreatePlanWrites(domains, settings, account, vm, isStart);
    MappingPersists(t, plan, key);
    DestroyEffect(created, vm.uuid, key);
    forall r | Replace(r) in plan
      ensures r !in Run(created, DestroyPlan(created.mapping, vm.uuid), key).records
    {
      assert MappedIn(plan, vm.uuid, r);
      if InsertIgnore(MappingRow(vm.uuid, r.name, None)) in plan {
        assert Hits(MappingRow(vm.uuid, r.name, None), r);
      } else {
        assert Hits(MappingRow(vm.uuid, r.name, Some(r.content)), r);
      }
    }
  }

  /**
   * Replaying a create is not idempotent on `cs_mapping`: the NULL-address
   * row of the forward name is inserted again each time, because NULLs do
   * not collide under the UNIQUE constraint.
   */
  lemma ReplayDuplicatesMappingRows(t: Tables, domains: map<string, int>, settings: Settings, account: Account,
                                    vm: Vm, isStart: bool, key: ReplaceKey)
    requires Synchronizable(vm) && ChosenZone(account, vm) in domains
    ensures var plan := CreatePlan(domains, settings, account, vm, isStart);
      var row := MappingRow(vm.uuid, vm.name + "." + ChosenZone(account, vm), None);
      multiset(Run(Run(t, plan, key), plan, key).mapping)[row] >= multiset(t.mapping)[row] + 2
  {
    var plan := CreatePlan(domains, settings, account, vm, isStart);
    var zone := ChosenZone(account, vm);
    var row := MappingRow(vm.uuid, vm.name + "." + zone, None);
    var common := if settings.addToCommonZone == "true" then AZonePlan(domains, account, vm, settings.commonZone) else [];
    var chosen := AZonePlan(domains, account, vm, zone);
    var ptr := if isStart then [] else PtrZonePlan(domains, vm);
    assert plan == [DeleteByName(vm.fqdn)] + CreateWrites(domains, settings, account, vm, isStart);
    assert CreateWrites(domains, settings, account, vm, isStart) == common + chosen + ptr;
    assert InsertIgnore(row) in chosen;
    CountInsertsPositive(plan, row);
    CreatePlanWrites(domains, settings, account, vm, isStart);
    NullRowsAccumulate(t, plan, row, key);
    NullRowsAccumulate(Run(t, plan, key), plan, row, key);
  }

  /**
   * Without a unique key on `records`, replaying a create for an account with
   * a network domain other than the VM's domain duplicates the forward A
   * record: the pre-delete removes records named after the VM's domain, not
   * the name written under the network domain.
   */
  lemma ReplayDuplicatesRecords(t: Tables, domains: map<string, int>, settings: Settings, account: Account,
                                vm: Vm, isStart: bool)
    requires Synchronizable(vm) && Truthy(account.networkDomain)
    requires vm.fqdn == vm.name + "." + vm.domain.value
    requires account.networkDomain.value != vm.domain.value
    requires account.networkDomain.value in domains
    ensures var plan := CreatePlan(domains, settings, account, vm, isStart);
      var nd := account.networkDomain.value;
      var r := Record(vm.name + "." + nd, A, vm.ip4.value, domains[nd]);
      multiset(Run(Run(t, plan, NoUniqueKey), plan, NoUniqueKey).records)[r] >= multiset(t.records)[r] + 2
  {
    var plan := CreatePlan(domains, settings, account, vm, isStart);
    var nd := account.networkDomain.value;
    var r := Record(vm.name + "." + nd, A, vm.ip4.value, domains[nd]);
    ForwardZoneChoice(domains, settings, account, vm, isStart);
    CreatePlanWrites(domains, settings, account, vm, isStart);
    assert r.name[|vm.name| + 1..] == nd;
    assert vm.fqdn[|vm.name| + 1..] == vm.domain.value;
    assert Spares(plan, r);
    CountReplacesPositive(plan, r);
    RecordsAccumulate(t, plan, r);
    RecordsAccumulate(Run(t, plan, NoUniqueKey), plan, r);
  }

  // ---------------------------------------------------------------------------
  // The statement-issuing functions of the exporter
  // ---------------------------------------------------------------------------

  /** A record followed by its mapping row, as each alias and PTR write is issued. */
  method WriteMapped(db: PowerDns, rec: Record, row: MappingRow)
    modifies db
    ensures db.State() == Run(old(db.State()), [Replace(rec), InsertIgnore(row)], db.key)
  {
    ghost var t0 := db.State();
    db.ReplaceRecord(rec);
    RunSnoc(t0, [], Replace(rec), db.key);
    db.InsertIgnoreMapping(row);
    RunSnoc(t0, [Replace(rec)], InsertIgnore(row), db.key);
    assert [Replace(rec)] + [InsertIgnore(row)] == [Replace(rec), InsertIgnore(row)];
  }

  /** The group-alias part of `update_a_zone` for a zone with id `id`. */
  method UpdateGroupAlias(db: PowerDns, account: Account, vm: Vm, zone: string, id: int)
    requires vm.ip4.Some?
    modifies db
    ensures db.State() == Run(old(db.State()), GroupPlan(account, vm, zone, id), db.key)
  {
    var group := GroupFqdn(vm.group, account.uuid, zone);
    if group.Some? {
      ghost var t0 := db.State();
      var v4 := [Replace(Record(group.value, A, vm.ip4.value, id)), InsertIgnore(MappingRow(vm.uuid, group.value, Some(vm.ip4.value)))];
      WriteMapped(db, v4[0].rec, v4[1].row);
      if vm.ip6.Some? {
        var v6 := [Replace(Record(group.value, AAAA, vm.ip6.value.text, id)), InsertIgnore(MappingRow(vm.uuid, group.value, Some(vm.ip6.value.text)))];
        WriteMapped(db, v6[0].rec, v6[1].row);
        RunAppend(t0, v4, v6, db.key);
        assert GroupPlan(account, vm, zone, id) == v4 + v6;
      } else {
        assert v4 + [] == v4;
        assert GroupPlan(account, vm, zone, id) == v4;
      }
    }
  }

  /** `update_a_zone(cursor, account, vm, domain)` */
  method UpdateAZone(db: PowerDns, account: Account, vm: Vm, zone: string)
    requires vm.ip4.Some?
    modifies db
    ensures db.State() == Run(old(db.State()), AZonePlan(db.domains, account, vm, zone), db.key)
  {
    ghost var t0 := db.State();
    var id := db.SelectDomainId(zone);
    var fqdn := vm.name + "." + zone;
    if id.Some? {
      var a := Replace(Record(fqdn, A, vm.ip4.value, id.value));
      db.ReplaceRecord(a.rec);
      RunSnoc(t0, [], a, db.key);
      ghost var done: seq<Stmt> := [a];
      if vm.ip6.Some? {
        var aaaa := Replace(Record(fqdn, AAAA, vm.ip6.value.text, id.value));
        db.ReplaceRecord(aaaa.rec);
        RunSnoc(t0, done, aaaa, db.key);
        done := done + [aaaa];
      }
      var row := InsertIgnore(MappingRow(vm.uuid, fqdn, None));
      db.InsertIgnoreMapping(row.row);
      RunSnoc(t0, done, row, db.key);
      done := done + [row];
      UpdateGroupAlias(db, account, vm, zone, id.value);
      RunAppend(t0, done, GroupPlan(account, vm, zone, id.value), db.key);
      done := done + GroupPlan(account, vm, zone, id.value);
      assert done == AZonePlan(db.domains, account, vm, zone);
    }
  }

  /** The body of `update_ptr_zone` for one reverse name. */
  method UpdatePtr(db: PowerDns, vm: Vm, names: Option<PtrNames>)
    modifies db
    ensures db.State() == Run(old(db.State()), PtrPlan(db.domains, vm, names), db.key)
  {
    if names.Some? {
      var id := db.SelectDomainId(names.value.zone);
      if id.Some? {
        WriteMapped(db, Record(names.value.ptr, PTR, vm.fqdn, id.value), MappingRow(vm.uuid, names.value.ptr, None));
      }
    }
  }

  /** `update_ptr_zone(cursor, vm)` */
  method UpdatePtrZone(db: PowerDns, vm: Vm)
    modifies db
    ensures db.State() == Run(old(db.State()), PtrZonePlan(db.domains, vm), db.key)
  {
    ghost var t0 := db.State();
    UpdatePtr(db, vm, vm.ip4Ptr);
    ghost var t1 := db.State();
    if vm.ip6.Some? {
      UpdatePtr(db, vm, vm.ip6Ptr);
    }
    RunAppend(t0, PtrPlan(db.domains, vm, vm.ip4Ptr), if vm.ip6.Some? then PtrPlan(db.domains, vm, vm.ip6Ptr) else [], db.key);
  }

  /** Why the handling of an event stopped with an exception, before any statement. */
  datatype Abort = MissingJobResult | MalformedPayload | BadVm(error: VmError)

  datatype Outcome = Ignored | Aborted(reason: Abort) | Skipped | Applied

  /**
   * The VM a create or start event describes: the job result unwrapped,
   * decoded by `decode` (json.loads), and turned into a VirtualMachine.
   */
  function ResolveVm(m: Event, decode: string -> Option<VmInfo>, domainLookup: Option<string>): Result<Vm, Abort> {
    if "jobResult" !in m then Failure(MissingJobResult)
    else
      match decode(ExtractCreatePayload(m["jobResult"]))
      case None => Failure(MalformedPayload)
      case Some(info) =>
        match NewVirtualMachine(info, domainLookup)
        case Failure(e) => Failure(BadVm(e))
        case Success(vm) => Success(vm)
  }

  /**
   * `create_new_records(m)`.  The account (`listAccounts`) and the VM's
   * domain (`listDomains`) are given resolved.
   */
  method CreateNewRecords(db: PowerDns, m: Event, settings: Settings, account: Account,
                          decode: string -> Option<VmInfo>, domainLookup: Option<string>) returns (outcome: Outcome)
    modifies db
    ensures outcome.Ignored? <==> !(CreateMatch(m) || StartMatch(m))
    ensures outcome.Aborted? <==> (CreateMatch(m) || StartMatch(m)) && ResolveVm(m, decode, domainLookup).Failure?
    ensures outcome.Skipped? <==> (CreateMatch(m) || StartMatch(m)) && ResolveVm(m, decode, domainLookup).Success?
                                  && !Synchronizable(ResolveVm(m, decode, domainLookup).value)
    ensures !outcome.Applied? ==> db.State() == old(db.State())
    ensures outcome.Applied? ==>
      db.State() == Run(old(db.State()),
                        CreatePlan(db.domains, settings, account, ResolveVm(m, decode, domainLookup).value, StartMatch(m)),
                        db.key)
  {
    var isCreate := CreateMatch(m);
    var isStart := StartMatch(m);
    if !(isCreate || isStart) {
      return Ignored;
    }
    var resolved := ResolveVm(m, decode, domainLookup);
    if resolved.Failure? {
      return Aborted(resolved.error);
    }
    var vm := resolved.value;
    if !(Truthy(vm.domain) && Truthy(vm.ip4)) {
      return Skipped;
    }
    ApplyCreate(db, settings, account, vm, isStart);
    return Applied;
  }

  /** The statements `create_new_records` issues for a VM that has a domain and an IPv4 address. */
  method ApplyCreate(db: PowerDns, settings: Settings, account: Account, vm: Vm, isStart: bool)
    requires Synchronizable(vm)
    modifies db
    ensures db.State() == Run(old(db.State()), CreatePlan(db.domains, settings, account, vm, isStart), db.key)
  {
    ghost var t0 := db.State();
    ghost var common := if settings.addToCommonZone == "true" then AZonePlan(db.domains, account, vm, settings.commonZone) else [];
    ghost var chosen := AZonePlan(db.domains, account, vm, ChosenZone(account, vm));
    ghost var ptr := if isStart then [] else PtrZonePlan(db.domains, vm);
    db.DeleteRecords(vm.fqdn);
    RunSnoc(t0, [], DeleteByName(vm.fqdn), db.key);
    ghost var t1 := db.State();
    if settings.addToCommonZone == "true" {
      UpdateAZone(db, account, vm, settings.commonZone);
    }
    ghost var t2 := db.State();
    if Truthy(account.networkDomain) {
      UpdateAZone(db, account, vm, account.networkDomain.value);
    } else {
      UpdateAZone(db, account, vm, vm.domain.value);
    }
    ghost var t3 := db.State();
    if !isStart {
      UpdatePtrZone(db, vm);
    }
    assert t1 == Run(t0, [DeleteByName(vm.fqdn)], db.key);
    assert t2 == Run(t1, common, db.key);
    assert t3 == Run(t2, chosen, db.key);
    assert db.State() == Run(t3, ptr, db.key);
    RunAppend(t1, common, chosen, db.key);
    RunAppend(t1, common + chosen, ptr, db.key);
    assert CreateWrites(db.domains, settings, account, vm, isStart) == common + chosen + ptr;
    RunAppend(t0, [DeleteByName(vm.fqdn)], CreateWrites(db.domains, settings, account, vm, isStart), db.key);
  }

  /** `delete_removed_records(m)` */
  method DeleteRemovedRecords(db: PowerDns, m: Event)
    modifies db
    ensures !DestroyMatch(m) ==> db.State() == old(db.State())
    ensures DestroyMatch(m) ==>
      db.State() == Run(old(db.State()), DestroyPlan(old(db.mapping), Lower(m["VirtualMachine"])), db.key)
  {
    if DestroyMatch(m) {
      var uuid := Lower(m["VirtualMachine"]);
      ghost var t0 := db.State();
      var rows := db.SelectMapping(uuid);
      var i := 0;
      while i < |rows|
        invariant 0 <= i <= |rows|
        invariant db.State() == Run(t0, DeletesFor(rows[..i]), db.key)
      {
        var row := rows[i];
        if Truthy(row.ipaddress) {
          db.DeleteRecordsWithContent(row.record, row.ipaddress.value);
        } else {
          db.DeleteRecords(row.record);
        }
        DeletesForSnoc(rows, i);
        RunSnoc(t0, DeletesFor(rows[..i]), RowDelete(row), db.key);
        i := i + 1;
      }
      assert rows[..|rows|] == rows;
      db.DeleteMapping(uuid);
      RunSnoc(t0, DeletesFor(rows), DeleteMappingOf(uuid), db.key);
    }
  }
}
