/**
 * The VirtualMachine record of the exporter: the fields it derives from the
 * CloudStack VM description (name, uuid, primary NIC addresses, group label)
 * and the reverse-DNS names it computes from them.
 *
 * The address library's parsing is not modelled: an IPv6 address and an IPv6
 * network are given in exploded form, as 32 lower-case hex nibbles.
 */
module VirtualMachine {
  import opened Wrappers
  import opened Text

  // ---------------------------------------------------------------------------
  // IPv4 reverse names
  // ---------------------------------------------------------------------------

  const Ip4ArpaSuffix: string := ".in-addr.arpa"

  /** `ip4_ptr`: the dot-separated labels of the address in reverse order, under in-addr.arpa. */
  function Ip4Ptr(ip4: string): string {
    Join(Reverse(Split(ip4, '.')), '.') + Ip4ArpaSuffix
  }

  /** `ip4_ptr_zone`: the same with the first (least-significant) label left out. */
  function Ip4PtrZone(ip4: string): string {
    Join(Reverse(Split(ip4, '.'))[1..], '.') + Ip4ArpaSuffix
  }

  /**
   * For an address with at least one dot the pointer name is its last label,
   * a dot and the zone; so the zone is the parent of the pointer name.
   */
  lemma Ip4PtrInZone(ip4: string)
    requires '.' in ip4
    ensures Ip4Ptr(ip4) == Split(ip4, '.')[|Split(ip4, '.')| - 1] + "." + Ip4PtrZone(ip4)
    ensures EndsWith(Ip4Ptr(ip4), "." + Ip4PtrZone(ip4))
  {
    var labels := Reverse(Split(ip4, '.'));
    SplitCount(ip4, '.');
    assert |labels| >= 2;
    assert Join(labels, '.') == labels[0] + "." + Join(labels[1..], '.');
    var ptr := Ip4Ptr(ip4);
    var tail := "." + Ip4PtrZone(ip4);
    assert ptr == labels[0] + tail;
    assert ptr[|ptr| - |tail|..] == tail;
  }

  /** An address without a dot gives a pointer name that is the address itself under the bare zone. */
  lemma Ip4PtrNoDot(ip4: string)
    requires '.' !in ip4
    ensures Ip4Ptr(ip4) == ip4 + Ip4ArpaSuffix
    ensures Ip4PtrZone(ip4) == Ip4ArpaSuffix
  {
    SplitNoSeparator(ip4, '.');
    assert Reverse([ip4]) == [ip4];
  }

  lemma JoinCons(head: string, rest: seq<string>, sep: char)
    requires rest != []
    ensures Join([head] + rest, sep) == head + [sep] + Join(rest, sep)
  {
    assert ([head] + rest)[1..] == rest;
  }

  lemma JoinThree(x: string, y: string, z: string)
    ensures Join([x, y, z], '.') == x + "." + y + "." + z
  {
    JoinCons(y, [z], '.');
    assert [y, z] == [y] + [z];
    JoinCons(x, [y, z], '.');
    assert [x, y, z] == [x] + [y, z];
  }

  lemma JoinFour(w: string, x: string, y: string, z: string)
    ensures Join([w, x, y, z], '.') == w + "." + x + "." + y + "." + z
  {
    JoinThree(x, y, z);
    JoinCons(w, [x, y, z], '.');
    assert [w, x, y, z] == [w] + [x, y, z];
  }

  /** A dotted quad a.b.c.d has pointer d.c.b.a.in-addr.arpa in zone c.b.a.in-addr.arpa. */
  lemma Ip4DottedQuad(a: string, b: string, c: string, d: string)
    requires '.' !in a && '.' !in b && '.' !in c && '.' !in d
    ensures Ip4Ptr(a + "." + b + "." + c + "." + d) == d + "." + c + "." + b + "." + a + Ip4ArpaSuffix
    ensures Ip4PtrZone(a + "." + b + "." + c + "." + d) == c + "." + b + "." + a + Ip4ArpaSuffix
  {
    var parts := [a, b, c, d];
    JoinFour(a, b, c, d);
    SplitJoin(parts, '.');
    var rev := Reverse(parts);
    assert rev == [d, c, b, a];
    assert rev[1..] == [c, b, a];
    JoinFour(d, c, b, a);
    JoinThree(c, b, a);
  }

  /** Reading the labels of the pointer name back in reverse order gives the address again. */
  lemma Ip4PtrRoundTrip(ip4: string)
    ensures Join(Reverse(Split(Join(Reverse(Split(ip4, '.')), '.'), '.')), '.') == ip4
  {
    var labels := Split(ip4, '.');
    var rev := Reverse(labels);
    assert forall i :: 0 <= i < |rev| ==> '.' !in rev[i];
    SplitJoin(rev, '.');
    ReverseReverse(labels);
    JoinSplit(ip4, '.');
  }

  // ---------------------------------------------------------------------------
  // IPv6 reverse names
  // ---------------------------------------------------------------------------

  const Ip6ArpaSuffix: string := ".ip6.arpa"

  predicate IsNibble(c: char) { '0' <= c <= '9' || 'a' <= c <= 'f' }

  /** The exploded form of an IPv6 address without its colons: 32 hex nibbles. */
  predicate ValidNibbles(n: seq<char>) {
    |n| == 32 && forall i :: 0 <= i < |n| ==> IsNibble(n[i])
  }

  /** An IPv6 address as the NIC reports it (`text`) with its exploded nibbles. */
  datatype Ip6Address = Ip6Address(text: string, exploded: seq<char>)

  /** An IPv6 network `exploded/prefix`, as the address library reads the NIC's `ip6cidr`. */
  datatype Ip6Network = Ip6Network(exploded: seq<char>, prefix: nat)

  /** 32 nibbles and a prefix of at most 128 bits, whatever the host bits. */
  predicate NetworkShape(net: Ip6Network) {
    ValidNibbles(net.exploded) && net.prefix <= 128
  }

  /** The value of a hex nibble. */
  function NibbleValue(c: char): (v: nat)
    requires IsNibble(c)
    ensures v < 16
  {
    if c <= '9' then c as int - '0' as int else c as int - 'a' as int + 10
  }

  /** 2 to the number of host bits in the nibble the prefix ends in (16 when it ends on a boundary). */
  function HostSpan(prefix: nat): nat {
    if prefix % 4 == 0 then 16 else if prefix % 4 == 1 then 8 else if prefix % 4 == 2 then 4 else 2
  }

  /**
   * A network the address library accepts in strict mode: 32 nibbles, a
   * prefix of at most 128 bits, and every bit after the prefix zero.
   */
  predicate ValidNetwork(net: Ip6Network) {
    && NetworkShape(net)
    && (forall i :: net.prefix / 4 < i < 32 ==> net.exploded[i] == '0')
    && (net.prefix < 128 ==> NibbleValue(net.exploded[net.prefix / 4]) % HostSpan(net.prefix) == 0)
  }

  /** A /64 network with a host bit set in its last nibble is rejected. */
  lemma HostBitsRejected(n: seq<char>)
    requires ValidNibbles(n) && n[31] == '1'
    ensures !ValidNetwork(Ip6Network(n, 64))
  {
    assert 64 / 4 < 31 < 32;
  }


  /** Each character as a one-character string, as iterating over a Python string yields. */
  function Chars(cs: seq<char>): (r: seq<string>)
    ensures |r| == |cs|
    ensures forall i :: 0 <= i < |cs| ==> r[i] == [cs[i]]
  {
    seq(|cs|, i requires 0 <= i < |cs| => [cs[i]])
  }

  /** The decimal text of a number, as `%d` writes the prefix length. */
  function Decimal(n: nat): (r: string)
    ensures r != []
    ensures forall i :: 0 <= i < |r| ==> '0' <= r[i] <= '9'
  {
    if n < 10 then [('0' as int + n) as char]
    else Decimal(n / 10) + [('0' as int + n % 10) as char]
  }

  /** `reverse_pointer` of an address: its nibbles in reverse order, one label each, under ip6.arpa. */
  function Ip6Ptr(exploded: seq<char>): string {
    Join(Chars(Reverse(exploded)), '.') + Ip6ArpaSuffix
  }

  /**
   * `reverse_pointer` of a network: the exploded text `nibbles/prefix`, reversed,
   * colons removed, every character a label.  The reversed prefix digits and
   * the `/` come first.
   */
  function Ip6NetworkReversePointer(net: Ip6Network): string {
    Join(Chars(Reverse(Decimal(net.prefix)) + ['/'] + Reverse(net.exploded)), '.') + Ip6ArpaSuffix
  }

  /** `pref_cut`: the leading separator plus two characters per nibble outside the prefix. */
  function Ip6PrefixCut(prefix: nat): nat
    requires prefix <= 128
  {
    (128 - prefix) / 4 * 2 + 1
  }

  /** `ip6_ptr_zone`: the text after `/` in the network's reverse pointer, less the first `pref_cut` characters. */
  function Ip6PtrZone(net: Ip6Network): string
    requires net.prefix <= 128
  {
    var parts := Split(Ip6NetworkReversePointer(net), '/');
    if |parts| >= 2 then Drop(parts[1], Ip6PrefixCut(net.prefix)) else []
  }

  /** Number of network nibbles the zone keeps: the prefix length divided by four, rounded up. */
  function KeptNibbles(prefix: nat): (k: nat)
    requires prefix <= 128
    ensures k <= 32
    ensures k * 4 >= prefix && k * 4 < prefix + 4
  {
    32 - (128 - prefix) / 4
  }

  /**
   * Reference reverse-DNS name of a nibble sequence given least-significant
   * nibble first: `n0.n1. ... .ip6.arpa`, or `ip6.arpa` for no nibbles.
   */
  function ReverseName(cs: seq<char>): (r: string)
    ensures |r| == 2 * |cs| + 8
  {
    if cs == [] then "ip6.arpa" else [cs[0]] + "." + ReverseName(cs[1..])
  }

  lemma {:induction false} JoinCharsReverseName(cs: seq<char>)
    requires cs != []
    ensures Join(Chars(cs), '.') + Ip6ArpaSuffix == ReverseName(cs)
  {
    if |cs| > 1 {
      assert Chars(cs)[1..] == Chars(cs[1..]);
      JoinCharsReverseName(cs[1..]);
    }
  }

  lemma {:induction false} JoinCharsContent(cs: seq<char>, c: char)
    requires c in Join(Chars(cs), '.')
    ensures c == '.' || c in cs
  {
    if |cs| > 1 {
      assert Chars(cs)[1..] == Chars(cs[1..]);
      if c !in [cs[0]] + "." {
        JoinCharsContent(cs[1..], c);
      }
    }
  }

  /** Dropping two characters per label removes that many leading nibbles. */
  lemma {:induction false} DropLabels(cs: seq<char>, k: nat)
    requires k <= |cs|
    ensures Drop(ReverseName(cs), 2 * k) == ReverseName(cs[k..])
  {
    if k > 0 {
      DropLabels(cs[1..], k - 1);
      assert cs[1..][k - 1..] == cs[k..];
    }
  }

  /** The pointer name of an address is the reference name of its nibbles, least significant first. */
  lemma Ip6PtrIsReverseName(exploded: seq<char>)
    requires ValidNibbles(exploded)
    ensures Ip6Ptr(exploded) == ReverseName(Reverse(exploded))
  {
    JoinCharsReverseName(Reverse(exploded));
  }

  /** The network's reverse pointer is the prefix part, the `/` label, and the nibble part. */
  lemma NetworkPointerAtSlash(net: Ip6Network)
    requires net.exploded != []
    ensures Ip6NetworkReversePointer(net)
      == (Join(Chars(Reverse(Decimal(net.prefix))), '.') + ".") + ['/']
         + ("." + Join(Chars(Reverse(net.exploded)), '.') + Ip6ArpaSuffix)
  {
    var digits := Reverse(Decimal(net.prefix));
    var rev := Reverse(net.exploded);
    assert Chars(digits + ['/'] + rev) == Chars(digits) + [['/']] + Chars(rev);
    JoinAppend(Chars(digits), [['/']], '.');
    JoinAppend(Chars(digits) + [['/']], Chars(rev), '.');
  }

  /** Splitting the network's reverse pointer at `/` gives the prefix part and the nibble part. */
  lemma NetworkPointerSplit(net: Ip6Network)
    requires NetworkShape(net)
    ensures |Split(Ip6NetworkReversePointer(net), '/')| == 2
    ensures Split(Ip6NetworkReversePointer(net), '/')[1] == "." + ReverseName(Reverse(net.exploded))
  {
    var digits := Reverse(Decimal(net.prefix));
    var rev := Reverse(net.exploded);
    var x := Join(Chars(digits), '.') + ".";
    var y := "." + Join(Chars(rev), '.') + Ip6ArpaSuffix;
    NetworkPointerAtSlash(net);
    SplitAround(x, '/', y);
    forall c | c in Join(Chars(digits), '.') ensures c != '/' {
      JoinCharsContent(digits, c);
    }
    forall c | c in Join(Chars(rev), '.') ensures c != '/' {
      JoinCharsContent(rev, c);
    }
    assert '/' !in x;
    assert '/' !in Ip6ArpaSuffix;
    assert '/' !in y;
    SplitNoSeparator(x, '/');
    SplitNoSeparator(y, '/');
    JoinCharsReverseName(rev);
  }

  /**
   * The zone is the reference name of the first KeptNibbles(prefix) network
   * nibbles: the two-element split at `/` and the cut land on nibble labels.
   */
  lemma Ip6PtrZoneIsReverseName(net: Ip6Network)
    requires NetworkShape(net)
    ensures Ip6PtrZone(net) == ReverseName(Reverse(net.exploded[..KeptNibbles(net.prefix)]))
  {
    var rev := Reverse(net.exploded);
    var k := (128 - net.prefix) / 4;
    NetworkPointerSplit(net);
    var y := "." + ReverseName(rev);
    assert Ip6PtrZone(net) == Drop(y, 2 * k + 1);
    assert Drop(y, 2 * k + 1) == Drop(ReverseName(rev), 2 * k);
    DropLabels(rev, k);
    assert rev[k..] == Reverse(net.exploded[..KeptNibbles(net.prefix)]);
  }

  lemma {:induction false} ReverseNameAppend(x: seq<char>, y: seq<char>)
    ensures EndsWith(ReverseName(x + y), ReverseName(y))
  {
    if x != [] {
      assert (x + y)[1..] == x[1..] + y;
      ReverseNameAppend(x[1..], y);
    } else {
      assert x + y == y;
    }
  }

  lemma {:induction false} ReverseNameInjective(x: seq<char>, y: seq<char>)
    requires |x| == |y|
    requires ReverseName(x) == ReverseName(y)
    ensures x == y
  {
    if x != [] {
      assert ReverseName(x)[0] == x[0];
      assert ReverseName(x)[2..] == ReverseName(x[1..]);
      assert ReverseName(y)[2..] == ReverseName(y[1..]);
      ReverseNameInjective(x[1..], y[1..]);
    }
  }

  lemma ReverseSplit<T>(s: seq<T>, j: nat)
    requires j <= |s|
    ensures Reverse(s) == Reverse(s[j..]) + Reverse(s[..j])
  {
    assert s == s[..j] + s[j..];
    ReverseAppend(s[..j], s[j..]);
  }

  lemma ReverseInjective<T>(x: seq<T>, y: seq<T>)
    requires Reverse(x) == Reverse(y)
    ensures x == y
  {
    ReverseReverse(x);
    ReverseReverse(y);
  }

  /** Two strings of the same length that end a string are equal. */
  lemma SameLengthSuffixes<T>(s: seq<T>, u: seq<T>, v: seq<T>)
    requires EndsWith(s, u) && |u| == |v|
    ensures EndsWith(s, v) <==> u == v
  {
  }

  /**
   * The zone is a suffix of the address's pointer name exactly when the
   * address agrees with the network on the first KeptNibbles(prefix) nibbles.
   * For a prefix that is a multiple of 4 that is "the address is in the
   * network"; otherwise the zone is that of the next longer nibble boundary.
   */
  lemma Ip6ZoneSuffixIff(addr: seq<char>, net: Ip6Network)
    requires ValidNibbles(addr) && NetworkShape(net)
    ensures EndsWith(Ip6Ptr(addr), Ip6PtrZone(net))
        <==> addr[..KeptNibbles(net.prefix)] == net.exploded[..KeptNibbles(net.prefix)]
  {
    var j := KeptNibbles(net.prefix);
    var high, netHigh := Reverse(addr[..j]), Reverse(net.exploded[..j]);
    Ip6PtrIsReverseName(addr);
    Ip6PtrZoneIsReverseName(net);
    ReverseSplit(addr, j);
    ReverseNameAppend(Reverse(addr[j..]), high);
    SameLengthSuffixes(Ip6Ptr(addr), ReverseName(high), ReverseName(netHigh));
    if ReverseName(high) == ReverseName(netHigh) {
      ReverseNameInjective(high, netHigh);
      ReverseInjective(addr[..j], net.exploded[..j]);
    }
  }

  /** With a nibble-aligned prefix, every address inside the network has its pointer name in the zone. */
  lemma Ip6ZoneAligned(addr: seq<char>, net: Ip6Network)
    requires ValidNibbles(addr) && NetworkShape(net)
    requires net.prefix % 4 == 0
    requires addr[..net.prefix / 4] == net.exploded[..net.prefix / 4]
    ensures EndsWith(Ip6Ptr(addr), Ip6PtrZone(net))
  {
    assert KeptNibbles(net.prefix) == net.prefix / 4;
    Ip6ZoneSuffixIff(addr, net);
  }

  // ---------------------------------------------------------------------------
  // Group alias
  // ---------------------------------------------------------------------------

  /** The account fields the exporter reads (resolved through `listAccounts`). */
  datatype Account = Account(uuid: string, name: string, networkDomain: Option<string>)

  /** `group_fqdn`: `<alphanumerics of group, lower-cased>-<first 8 of account uuid>.<zone>`. */
  function GroupFqdn(group: Option<string>, accountUuid: string, zone: string): (r: Option<string>)
    ensures r.None? <==> group.None? || FilterAlnum(group.value) == []
  {
    if Truthy(group) then
      var name := FilterAlnum(group.value);
      if |name| > 0 then Some(Lower(name) + "-" + Take(accountUuid, 8) + "." + zone) else None
    else None
  }

  /**
   * The alias is a first label, a dot and the zone.  The label's group part
   * holds only [a-z0-9]; with an account uuid made of [a-z0-9-], as CloudStack
   * issues them, the whole label does.
   */
  lemma GroupFqdnShape(group: Option<string>, accountUuid: string, zone: string)
    requires GroupFqdn(group, accountUuid, zone).Some?
    ensures var r := GroupFqdn(group, accountUuid, zone).value;
      var head := Lower(FilterAlnum(group.value));
      && head != []
      && (forall i :: 0 <= i < |head| ==> IsLowerAlnum(head[i]))
      && |head| < |r| && r[..|head|] == head && r[|head|] == '-'
    ensures EndsWith(GroupFqdn(group, accountUuid, zone).value, "." + zone)
    ensures (forall i :: 0 <= i < |accountUuid| ==> IsLowerAlnum(accountUuid[i]) || accountUuid[i] == '-') ==>
      var r := GroupFqdn(group, accountUuid, zone).value;
      var first := r[..|r| - |zone| - 1];
      forall i :: 0 <= i < |first| ==> IsLowerAlnum(first[i]) || first[i] == '-'
  {
    var r := GroupFqdn(group, accountUuid, zone).value;
    var head := Lower(FilterAlnum(group.value));
    var first := head + "-" + Take(accountUuid, 8);
    assert r == first + ("." + zone);
    assert r[|r| - |"." + zone|..] == "." + zone;
    assert r[..|r| - |zone| - 1] == first;
    assert r[..|head|] == head;
  }

  // ---------------------------------------------------------------------------
  // The VirtualMachine record
  // ---------------------------------------------------------------------------

  /** A NIC of the VM description; None stands for a key the dictionary lacks. */
  datatype Nic = Nic(ipaddress: Option<string>, ip6address: Option<Ip6Address>, ip6cidr: Option<Ip6Network>)

  /** The decoded VM description of a job result (`name`, `id`, `nic`, `group`). */
  datatype VmInfo = VmInfo(name: string, id: string, nic: seq<Nic>, group: Option<string>)

  /** A pointer name together with the reverse zone it belongs in. */
  datatype PtrNames = PtrNames(ptr: string, zone: string)

  datatype Vm = Vm(
    name: string,
    uuid: string,
    domain: Option<string>,
    ip4: Option<string>,
    group: Option<string>,
    ip6: Option<Ip6Address>,
    ip6Cidr: Option<Ip6Network>,
    ip4Ptr: Option<PtrNames>,
    ip6Ptr: Option<PtrNames>,
    fqdn: string)

  /** The exception the constructor raises on a malformed description. */
  datatype VmError = NoNic | MissingIp6Cidr | InvalidIp6

  /** `"%s" % None` writes "None". */
  function Format(o: Option<string>): string {
    if o.Some? then o.value else "None"
  }

  /** True when the constructor's address library would reject the NIC's IPv6 address or network. */
  predicate Ip6Rejected(nic: Nic) {
    && nic.ip6address.Some? && nic.ip6cidr.Some?
    && Truthy(Some(nic.ip6address.value.text))
    && !(ValidNibbles(nic.ip6address.value.exploded) && ValidNetwork(nic.ip6cidr.value))
  }

  /**
   * `VirtualMachine(cs_api, vm_info)`, with the `listDomains` answer's
   * `networkdomain` given as `domainLookup` (None when the lookup finds none).
   */
  function NewVirtualMachine(info: VmInfo, domainLookup: Option<string>): (r: Result<Vm, VmError>)
    ensures r.Failure? <==>
      |info.nic| == 0
      || (info.nic[0].ip6address.Some? && info.nic[0].ip6cidr.None?)
      || Ip6Rejected(info.nic[0])
    ensures r.Success? ==>
      var vm := r.value;
      var nic := info.nic[0];
      && vm.name == Lower(info.name) && vm.uuid == Lower(info.id)
      && vm.domain == (if domainLookup.Some? then Some(Lower(domainLookup.value)) else None)
      && vm.fqdn == vm.name + "." + Format(vm.domain)
      && vm.group == info.group
      && vm.ip4 == nic.ipaddress
      && vm.ip6 == nic.ip6address
      && vm.ip6Cidr == (if nic.ip6address.Some? then nic.ip6cidr else None)
      && vm.ip4Ptr == (if Truthy(nic.ipaddress) then Some(PtrNames(Ip4Ptr(nic.ipaddress.value), Ip4PtrZone(nic.ipaddress.value))) else None)
      && (vm.ip6Ptr.Some? <==> nic.ip6address.Some? && Truthy(Some(nic.ip6address.value.text)))
      && (vm.ip6Ptr.Some? ==>
            && vm.ip6Cidr.Some? && ValidNibbles(vm.ip6.value.exploded) && ValidNetwork(vm.ip6Cidr.value)
            && vm.ip6Ptr == Some(PtrNames(Ip6Ptr(vm.ip6.value.exploded), Ip6PtrZone(vm.ip6Cidr.value))))
  {
    if |info.nic| == 0 then Failure(NoNic)
    else
      var nic := info.nic[0];
      if nic.ip6address.Some? && nic.ip6cidr.None? then Failure(MissingIp6Cidr)
      else if Ip6Rejected(nic) then Failure(InvalidIp6)
      else
        var name := Lower(info.name);
        var domain := if domainLookup.Some? then Some(Lower(domainLookup.value)) else None;
        var ip4 := nic.ipaddress;
        var ip4Ptr := if Truthy(ip4) then Some(PtrNames(Ip4Ptr(ip4.value), Ip4PtrZone(ip4.value))) else None;
        var ip6Ptr :=
          if nic.ip6address.Some? && Truthy(Some(nic.ip6address.value.text)) then
            Some(PtrNames(Ip6Ptr(nic.ip6address.value.exploded), Ip6PtrZone(nic.ip6cidr.value)))
          else None;
        Success(Vm(name, Lower(info.id), domain, ip4, info.group,
                   nic.ip6address, if nic.ip6address.Some? then nic.ip6cidr else None,
                   ip4Ptr, ip6Ptr, name + "." + Format(domain)))
  }

  /**
   * The reverse names of a constructed VM: the IPv4 zone is the parent of the
   * IPv4 pointer name, and with a nibble-aligned prefix the IPv6 pointer of an
   * address inside the network lies in the IPv6 zone.
   */
  lemma VmReverseNames(info: VmInfo, domainLookup: Option<string>)
    requires NewVirtualMachine(info, domainLookup).Success?
    ensures var vm := NewVirtualMachine(info, domainLookup).value;
      && (vm.ip4Ptr.Some? && '.' in vm.ip4.value ==> EndsWith(vm.ip4Ptr.value.ptr, "." + vm.ip4Ptr.value.zone))
      && (vm.ip6Ptr.Some? && vm.ip6Cidr.value.prefix % 4 == 0
          && vm.ip6.value.exploded[..vm.ip6Cidr.value.prefix / 4] == vm.ip6Cidr.value.exploded[..vm.ip6Cidr.value.prefix / 4]
          ==> EndsWith(vm.ip6Ptr.value.ptr, vm.ip6Ptr.value.zone))
  {
    var vm := NewVirtualMachine(info, domainLookup).value;
    if vm.ip4Ptr.Some? && '.' in vm.ip4.value {
      Ip4PtrInZone(vm.ip4.value);
    }
    if vm.ip6Ptr.Some? && vm.ip6Cidr.value.prefix % 4 == 0
      && vm.ip6.value.exploded[..vm.ip6Cidr.value.prefix / 4] == vm.ip6Cidr.value.exploded[..vm.ip6Cidr.value.prefix / 4]
    {
      Ip6ZoneAligned(vm.ip6.value.exploded, vm.ip6Cidr.value);
    }
  }
}
