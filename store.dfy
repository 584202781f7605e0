/**
 * The name-server database as the exporter's cursor sees it: the `records`
 * and `cs_mapping` tables it changes, and the `domains` table (zone name to
 * id) it only reads.  Each method is one SQL statement.
 */
module Store {
  import opened Wrappers
  import opened Tables

  class PowerDns {
    var records: seq<Record>
    var mapping: seq<MappingRow>
    const domains: map<string, int>
    const key: ReplaceKey

    constructor (domains: map<string, int>, key: ReplaceKey, records: seq<Record>, mapping: seq<MappingRow>)
      ensures this.domains == domains && this.key == key
      ensures this.records == records && this.mapping == mapping
    {
      this.domains := domains;
      this.key := key;
      this.records := records;
      this.mapping := mapping;
    }

    function State(): Tables
      reads this
    {
      Tables(records, mapping)
    }

    /** `SELECT id FROM domains WHERE name = %s` followed by `fetchone()`. */
    method SelectDomainId(name: string) returns (id: Option<int>)
      ensures id.Some? <==> name in domains
      ensures id.Some? ==> id.value == domains[name]
    {
      id := if name in domains then Some(domains[name]) else None;
    }

    /** `SELECT record, ipaddress FROM cs_mapping WHERE uuid = %s` followed by `fetchall()`. */
    method SelectMapping(uuid: string) returns (rows: seq<MappingRow>)
      ensures forall m :: m in rows <==> m in mapping && m.uuid == uuid
      ensures rows == Filter(mapping, (m: MappingRow) => m.uuid == uuid)
    {
      rows := Filter(mapping, (m: MappingRow) => m.uuid == uuid);
    }

    /** `DELETE FROM records WHERE name = %s` */
    method DeleteRecords(name: string)
      modifies this
      ensures State() == Exec(old(State()), DeleteByName(name), key)
      ensures forall r :: r in records <==> r in old(records) && r.name != name
    {
      records := Filter(records, (r: Record) => r.name != name);
    }

    /** `DELETE FROM records WHERE name = %s AND content = %s` */
    method DeleteRecordsWithContent(name: string, content: string)
      modifies this
      ensures State() == Exec(old(State()), DeleteByNameContent(name, content), key)
      ensures forall r :: r in records <==> r in old(records) && !(r.name == name && r.content == content)
    {
      records := Filter(records, (r: Record) => !(r.name == name && r.content == content));
    }

    /** `REPLACE INTO records (...) VALUES (...)`, replacing on the assumed unique key. */
    method ReplaceRecord(rec: Record)
      modifies this
      ensures State() == Exec(old(State()), Replace(rec), key)
      ensures rec in records && mapping == old(mapping)
    {
      if key == NameTypeDomain {
        records := Filter(records, (r: Record) => !SameKey(r, rec));
      }
      records := records + [rec];
    }

    /** `INSERT IGNORE INTO cs_mapping (...) VALUES (...)`; a missing ipaddress column is NULL. */
    method InsertIgnoreMapping(row: MappingRow)
      modifies this
      ensures State() == Exec(old(State()), InsertIgnore(row), key)
      ensures row in mapping && records == old(records)
    {
      if !exists m :: m in mapping && Collides(row, m) {
        mapping := mapping + [row];
      }
      InsertIgnoreStores(old(State()), row, key);
    }

    /** `DELETE FROM cs_mapping WHERE uuid = %s` */
    method DeleteMapping(uuid: string)
      modifies this
      ensures State() == Exec(old(State()), DeleteMappingOf(uuid), key)
      ensures forall m :: m in mapping <==> m in old(mapping) && m.uuid != uuid
    {
      mapping := Filter(mapping, (m: MappingRow) => m.uuid != uuid);
    }
  }
}
