/** The IP allocation of the machine database, after
    python-lib/prologin/mdb/models.py: a machine saved without an address
    gets the next one of its type's pool, organizers sharing the users'
    pool. Pools and machines are objects whose fields the allocation
    updates; the pool's CIDR network is given by its network address, and
    the database saves are the field updates themselves. */
module MdbModels {
  import opened Common

  /** The size of the IPv4 address space. */
  const AddressSpace: nat := 0x1_0000_0000

  /** The dotted-quad text of an IPv4 address, as `str` writes it. */
  function Dotted(a: nat): (r: string)
    requires a < AddressSpace
  {
    Join(Octets(a), '.')
  }

  function Octets(a: nat): (r: seq<string>)
    ensures |r| == 4 && forall i :: 0 <= i < 4 ==> '.' !in r[i]
  {
    var r := [NatToString(a / 0x100_0000 % 256), NatToString(a / 0x1_0000 % 256),
              NatToString(a / 0x100 % 256), NatToString(a % 256)];
    assert forall i :: 0 <= i < 4 ==> AllDigits(r[i]);
    r
  }

  /** Different addresses have different texts. */
  lemma DottedInjective(a: nat, b: nat)
    requires a < AddressSpace && b < AddressSpace
    requires Dotted(a) == Dotted(b)
    ensures a == b
  {
    SplitJoin(Octets(a), '.');
    SplitJoin(Octets(b), '.');
    assert Octets(a) == Octets(b);
    OctetsInjective(a, b);
  }

  lemma OctetsInjective(a: nat, b: nat)
    requires a < AddressSpace && b < AddressSpace
    requires Octets(a) == Octets(b)
    ensures a == b
  {
    NatToStringInjective(a / 0x100_0000 % 256, b / 0x100_0000 % 256);
    NatToStringInjective(a / 0x1_0000 % 256, b / 0x1_0000 % 256);
    NatToStringInjective(a / 0x100 % 256, b / 0x100 % 256);
    NatToStringInjective(a % 256, b % 256);
    Recompose(a);
    Recompose(b);
  }

  lemma Recompose(a: nat)
    requires a < AddressSpace
    ensures a == ((a / 0x100_0000 % 256 * 256 + a / 0x1_0000 % 256) * 256 + a / 0x100 % 256) * 256 + a % 256
  {
    var q1 := a / 0x100;
    var q2 := q1 / 0x100;
    var q3 := q2 / 0x100;
    assert a == q1 * 256 + a % 256;
    assert q1 == q2 * 256 + q1 % 256;
    assert q2 == q3 * 256 + q2 % 256;
    assert a / 0x1_0000 == q2 && a / 0x100_0000 == q3;
    assert q3 < 256;
  }

  /** The pool a machine type draws from: organizers share the users'. */
  function PoolType(mtype: string): (r: string)
    ensures r != "orga"
    ensures r == "user" <==> mtype == "user" || mtype == "orga"
    ensures r != mtype ==> mtype == "orga"
  {
    if mtype == "orga" then "user" else mtype
  }

  /** The address `network_address + last`, none when it leaves the
      address space (where `ipaddress` raises). */
  function PoolAddress(network: nat, last: int): (r: Option<nat>)
    ensures r.Some? <==> 0 <= network + last < AddressSpace
  {
    if 0 <= network + last < AddressSpace then Some(network + last) else None
  }

  /** The text of the address `network_address + last`, if any. */
  function AddressText(network: nat, last: int): (r: Option<string>)
    ensures r.Some? <==> PoolAddress(network, last).Some?
  {
    match PoolAddress(network, last)
    case Some(a) => Some(Dotted(a))
    case None => None
  }

  /** Two allocations from one pool, at different counts, give different
      addresses. */
  lemma AllocationsDistinct(network: nat, last1: int, last2: int)
    requires last1 != last2
    requires AddressText(network, last1).Some? && AddressText(network, last2).Some?
    ensures AddressText(network, last1).value != AddressText(network, last2).value
  {
    var a1 := PoolAddress(network, last1).value;
    var a2 := PoolAddress(network, last2).value;
    if Dotted(a1) == Dotted(a2) {
      DottedInjective(a1, a2);
    }
  }

  class IPPool {
    const mtype: string
    /** The network address of the pool's CIDR network. */
    const network: nat
    /** The count of addresses handed out. */
    var last: int

    constructor (mtype: string, network: nat, last: int)
      ensures this.mtype == mtype && this.network == network && this.last == last
    {
      this.mtype := mtype;
      this.network := network;
      this.last := last;
    }
  }

  class Machine {
    var hostname: string
    var mtype: string
    /** The address as text, empty until one is allocated. */
    var ip: string

    constructor (hostname: string, mtype: string, ip: string)
      ensures this.hostname == hostname && this.mtype == mtype && this.ip == ip
    {
      this.hostname := hostname;
      this.mtype := mtype;
      this.ip := ip;
    }
  }

  datatype AllocError = NoPool(pooltype: string) | AddressOutOfRange

  /** The first pool of a type; pool types are unique in the database. */
  function PoolOf(pools: seq<IPPool>, pooltype: string): (r: Option<nat>)
    ensures r.Some? ==> r.value < |pools| && pools[r.value].mtype == pooltype &&
                        forall j :: 0 <= j < r.value ==> pools[j].mtype != pooltype
    ensures r.None? ==> forall j :: 0 <= j < |pools| ==> pools[j].mtype != pooltype
  {
    if pools == [] then None
    else if pools[0].mtype == pooltype then Some(0)
    else match PoolOf(pools[1..], pooltype)
      case None => None
      case Some(k) => Some(k + 1)
  }

  /** `allocate_ip`: the pool of the machine's type counts one more
      address, saved before the address is computed; the machine gets the
      pool's network address plus the new count. A missing pool changes
      nothing; an address out of range leaves the count raised. */
  method AllocateIp(m: Machine, pools: seq<IPPool>) returns (err: Option<AllocError>)
    modifies m, set p | p in pools
    ensures var k := PoolOf(pools, PoolType(m.mtype));
      match k
      case None =>
        err == Some(NoPool(PoolType(m.mtype))) && m.ip == old(m.ip) &&
        forall p :: p in pools ==> p.last == old(p.last)
      case Some(i) =>
        var pool := pools[i];
        pool.last == old(pool.last) + 1 &&
        (forall p :: p in pools && p != pool ==> p.last == old(p.last)) &&
        match AddressText(pool.network, pool.last)
        case Some(text) => err.None? && m.ip == text
        case None => err == Some(AddressOutOfRange) && m.ip == old(m.ip)
    ensures m.hostname == old(m.hostname) && m.mtype == old(m.mtype)
  {
    var pooltype := if m.mtype == "orga" then "user" else m.mtype;
    var k := PoolOf(pools, pooltype);
    if k.None? {
      return Some(NoPool(pooltype));
    }
    var pool := pools[k.value];
    pool.last := pool.last + 1;
    var text := AddressText(pool.network, pool.last);
    if text.None? {
      return Some(AddressOutOfRange);
    }
    m.ip := text.value;
    err := None;
  }

  /** `Machine.save`: an address is allocated only when the machine has
      none. */
  method Save(m: Machine, pools: seq<IPPool>) returns (err: Option<AllocError>)
    modifies m, set p | p in pools
    ensures old(m.ip) != "" ==> err.None? && m.ip == old(m.ip) && forall p :: p in pools ==> p.last == old(p.last)
    ensures old(m.ip) == "" ==>
      var k := PoolOf(pools, PoolType(m.mtype));
      (k.None? ==>
         err == Some(NoPool(PoolType(m.mtype))) && m.ip == old(m.ip)
         && forall p :: p in pools ==> p.last == old(p.last)) &&
      (k.Some? ==>
         pools[k.value].last == old(pools[k.value].last) + 1 &&
         (forall p :: p in pools && p != pools[k.value] ==> p.last == old(p.last)) &&
         (err.None? <==> AddressText(pools[k.value].network, pools[k.value].last).Some?) &&
         (err.None? ==> m.ip == AddressText(pools[k.value].network, pools[k.value].last).value) &&
         (err.Some? ==> m.ip == old(m.ip)))
    ensures m.hostname == old(m.hostname) && m.mtype == old(m.mtype)
  {
    err := None;
    if m.ip == "" {
      err := AllocateIp(m, pools);
    }
  }
}
