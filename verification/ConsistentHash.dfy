/**
 The consistent-hash selector: a ring of virtual points, and the theorem it exists for, that taking
 a server away only moves the keys that server had.
 */
module ConsistentHash {
  import opened Bytes
  import opened Common
  import MsgNumber

  type Address = seq<byte>  // ToString() of an address

  /** `std::to_string` of a natural number. */
  function Decimal(n: nat): (d: seq<byte>)
    ensures d != []
    decreases n
  {
    (if n < 10 then [] else Decimal(n / 10)) + [48 + n % 10]
  }

  /** A string of digits read as a base-ten number: each digit times the power of ten of its place. */
  function Places(d: seq<byte>): int {
    if d == [] then 0 else (d[0] as int - 48) * MsgNumber.Power10(|d| - 1) + Places(d[1..])
  }

  lemma {:induction false} PlacesSnoc(d: seq<byte>, c: byte)
    ensures Places(d + [c]) == 10 * Places(d) + (c as int - 48)
  {
    if d == [] {
      assert (d + [c])[1..] == [] && d + [c] == [c];
    } else {
      assert (d + [c])[1..] == d[1..] + [c];
      PlacesSnoc(d[1..], c);
      MsgNumber.TimesTen(d[0] as int - 48, MsgNumber.Power10(|d| - 1));
    }
  }

  /** The decimal of a number has digits only, is that number in base ten, and has no leading zero. */
  lemma {:induction false} DecimalIs(n: nat)
    ensures forall c <- Decimal(n) :: 48 <= c <= 57
    ensures Places(Decimal(n)) == n
    ensures Decimal(n)[0] == 48 <==> n == 0
    ensures |Decimal(n)| == 1 <==> n < 10
    decreases n
  {
    if n >= 10 {
      DecimalIs(n / 10);
      PlacesSnoc(Decimal(n / 10), 48 + n % 10);
      assert Decimal(n)[0] == Decimal(n / 10)[0];
    } else {
      assert Decimal(n) == [48 + n] && Decimal(n)[1..] == [];
      assert Places(Decimal(n)) == n * MsgNumber.Power10(0) + Places([]);
    }
  }

  /** So no two groups of an address are hashed from the same string. */
  lemma GroupsHashApart(a: Address, i: nat, j: nat)
    requires a + Decimal(i) == a + Decimal(j)
    ensures i == j
  {
    DecimalIs(i);
    DecimalIs(j);
    assert (a + Decimal(i))[|a|..] == Decimal(i) && (a + Decimal(j))[|a|..] == Decimal(j);
  }

  /** The virtual points of one group: bytes 4h to 4h+3 of the digest, least significant first. */
  function Point(digest: seq<byte>, h: nat): (p: nat)
    requires h < 4 && |digest| >= 4 * h + 4
    ensures p < TWO_32
  {
    var b3: int, b2: int, b1: int, b0: int := digest[3 + h * 4], digest[2 + h * 4], digest[1 + h * 4], digest[h * 4];
    b3 * 0x100_0000 + b2 * 0x1_0000 + b1 * 256 + b0
  }

  /** The digests that the points of one address are read from have the sixteen bytes that are read. */
  ghost predicate FullFor(md5: seq<byte> -> seq<byte>, groups: nat, a: Address) {
    forall i :: 0 <= i < groups ==> |md5(a + Decimal(i))| >= 16
  }

  /** No digest that building the ring reads is shorter than what is read of it. */
  ghost predicate FullDigests(md5: seq<byte> -> seq<byte>, groups: nat, addrs: seq<Address>) {
    forall a <- addrs :: FullFor(md5, groups, a)
  }

  /** The j-th of the `n` points of an address, four to a group. */
  function PointOf(md5: seq<byte> -> seq<byte>, a: Address, j: nat): nat
    requires |md5(a + Decimal(j / 4))| >= 16
  {
    Point(md5(a + Decimal(j / 4)), j % 4)
  }

  /** Address `a` has a virtual point at `p`, with `groups` groups of four. */
  ghost predicate HasPoint(md5: seq<byte> -> seq<byte>, groups: nat, a: Address, p: nat)
    requires FullFor(md5, groups, a)
  {
    HasPointBefore(md5, groups, 4 * groups, a, p)
  }

  ghost predicate HasPointBefore(md5: seq<byte> -> seq<byte>, groups: nat, k: nat, a: Address, p: nat)
    requires FullFor(md5, groups, a) && k <= 4 * groups
  {
    exists j :: 0 <= j < k && PointOf(md5, a, j) == p
  }

  /** Which address a point belongs to: where points collide, the last in the list. */
  ghost function LastOwner(md5: seq<byte> -> seq<byte>, groups: nat, addrs: seq<Address>, p: nat): Option<Address>
    requires FullDigests(md5, groups, addrs)
  {
    if addrs == [] then None
    else
      var last := addrs[|addrs| - 1];
      if HasPoint(md5, groups, last, p) then Some(last)
      else LastOwner(md5, groups, addrs[..|addrs| - 1], p)
  }

  type Ring = map<nat, Address>

  /** The ring maps exactly the points of the addresses, each to its last owner. */
  ghost predicate IsRing(md5: seq<byte> -> seq<byte>, groups: nat, addrs: seq<Address>, ring: Ring)
    requires FullDigests(md5, groups, addrs)
  {
    forall p: nat ::
      && (p in ring <==> LastOwner(md5, groups, addrs, p).Some?)
      && (p in ring ==> LastOwner(md5, groups, addrs, p) == Some(ring[p]))
  }

  /** The constructor of `ConsistentHashSelector`; `fault` when it reads past a digest. */
  method BuildRing(md5: seq<byte> -> seq<byte>, addrs: seq<Address>, replicaNumber: nat) returns (ring: Ring, fault: bool)
    ensures fault <==> !FullDigests(md5, replicaNumber / 4, addrs)
    ensures !fault ==> IsRing(md5, replicaNumber / 4, addrs, ring)
  {
    hide FullFor, Written, IsRing;
    var groups := replicaNumber / 4;
    ring := map[];
    NoRing(md5, groups);
    for n := 0 to |addrs|
      invariant FullDigests(md5, groups, addrs[..n]) && IsRing(md5, groups, addrs[..n], ring)
    {
      ghost var before := ring;
      assert addrs[..n + 1] == addrs[..n] + [addrs[n]];
      ring, fault := AddInvoker(md5, addrs[n], groups, ring);
      if fault {
        assert addrs[n] in addrs;
        return;
      }
      RingOneMore(md5, groups, addrs[..n], addrs[n], before, ring);
    }
    assert addrs[..|addrs|] == addrs;
    fault := false;
  }

  lemma NoRing(md5: seq<byte> -> seq<byte>, groups: nat)
    ensures IsRing(md5, groups, [], map[])
  {
  }

  /** The two inner loops of the constructor: all the points of one address, written over what is there. */
  method AddInvoker(md5: seq<byte> -> seq<byte>, a: Address, groups: nat, before: Ring) returns (ring: Ring, fault: bool)
    ensures fault <==> !FullFor(md5, groups, a)
    ensures !fault ==> Written(md5, groups, a, 4 * groups, before, ring)
  {
    hide PointOf, Point;
    ring := before;
    for i := 0 to groups
      invariant FullFor(md5, i, a) && Written(md5, i, a, 4 * i, before, ring)
    {
      var digest := md5(a + Decimal(i));
      if |digest| < 16 {
        return ring, true;
      }
      MoreGroups(md5, i, a, 4 * i, before, ring);
      for h := 0 to 4
        invariant Written(md5, i + 1, a, 4 * i + h, before, ring)
      {
        var m := Point(digest, h);
        PointIs(md5, a, i, h);
        ghost var was := ring;
        ring := ring[m := a];
        WrittenOneMore(md5, i + 1, a, 4 * i + h, before, was, ring);
      }
    }
    fault := false;
  }

  lemma MoreGroups(md5: seq<byte> -> seq<byte>, groups: nat, a: Address, k: nat, before: Ring, ring: Ring)
    requires FullFor(md5, groups, a) && FullFor(md5, groups + 1, a) && k <= 4 * groups
    requires Written(md5, groups, a, k, before, ring)
    ensures Written(md5, groups + 1, a, k, before, ring)
  {
    hide PointOf;
    forall p: nat
      ensures HasPointBefore(md5, groups + 1, k, a, p) <==> HasPointBefore(md5, groups, k, a, p)
    {
    }
  }

  /** The first `k` points of `a` have been written over `before`. */
  ghost predicate Written(md5: seq<byte> -> seq<byte>, groups: nat, a: Address, k: nat, before: Ring, ring: Ring)
    requires FullFor(md5, groups, a) && k <= 4 * groups
  {
    forall p: nat ::
      var hit := HasPointBefore(md5, groups, k, a, p);
      && (p in ring <==> hit || p in before)
      && (p in ring ==> ring[p] == if hit then a else before[p])
  }

  lemma PointIs(md5: seq<byte> -> seq<byte>, a: Address, i: nat, h: nat)
    requires FullFor(md5, i + 1, a) && h < 4
    ensures PointOf(md5, a, 4 * i + h) == Point(md5(a + Decimal(i)), h)
  {
    assert (4 * i + h) / 4 == i && (4 * i + h) % 4 == h;
  }

  lemma WrittenOneMore(md5: seq<byte> -> seq<byte>, groups: nat, a: Address, k: nat, before: Ring, was: Ring, ring: Ring)
    requires FullFor(md5, groups, a) && k < 4 * groups && Written(md5, groups, a, k, before, was)
    requires ring == was[PointOf(md5, a, k) := a]
    ensures Written(md5, groups, a, k + 1, before, ring)
  {
    hide PointOf;
    forall p: nat
      ensures HasPointBefore(md5, groups, k + 1, a, p) <==> HasPointBefore(md5, groups, k, a, p) || PointOf(md5, a, k) == p
    {
      if HasPointBefore(md5, groups, k + 1, a, p) {
        var j :| 0 <= j < k + 1 && PointOf(md5, a, j) == p;
        assert j < k || j == k;
      }
    }
  }

  lemma RingOneMore(md5: seq<byte> -> seq<byte>, groups: nat, addrs: seq<Address>, a: Address, before: Ring, ring: Ring)
    requires FullDigests(md5, groups, addrs + [a]) && FullDigests(md5, groups, addrs) && FullFor(md5, groups, a)
    requires IsRing(md5, groups, addrs, before) && Written(md5, groups, a, 4 * groups, before, ring)
    ensures IsRing(md5, groups, addrs + [a], ring)
  {
    hide PointOf;
    var addrs' := addrs + [a];
    assert addrs'[..|addrs'| - 1] == addrs;
    forall p: nat
      ensures LastOwner(md5, groups, addrs', p)
           == if HasPoint(md5, groups, a, p) then Some(a) else LastOwner(md5, groups, addrs, p)
    {
    }
  }

  // ---- selection ----------------------------------------------------------------------------------

  /** `lower_bound(key)`, wrapping to the first point at the end. */
  ghost predicate Selects(ring: Ring, key: nat, p: nat) {
    && p in ring
    && if exists q :: q in ring && q >= key
       then p >= key && forall q :: q in ring && q >= key ==> p <= q
       else forall q :: q in ring ==> p <= q
  }

  lemma {:induction false} LeastExists(s: set<nat>) returns (p: nat)
    requires s != {}
    ensures p in s && forall q :: q in s ==> p <= q
    decreases |s|
  {
    p :| p in s;
    var rest := s - {p};
    assert s == rest + {p};
    if rest != {} {
      var q := LeastExists(rest);
      if q < p {
        p := q;
      }
    }
  }

  lemma SelectionExists(ring: Ring, key: nat) returns (p: nat)
    requires ring != map[]
    ensures Selects(ring, key, p)
  {
    var above := set q | q in ring && q >= key;
    if above != {} {
      p := LeastExists(above);
      assert p in ring && p >= key;
      assert forall q :: q in ring && q >= key ==> q in above;
    } else {
      assert ring.Keys != {};
      p := LeastExists(ring.Keys);
      assert forall q :: q in ring && q >= key ==> q in above;
    }
  }

  /** The address a key goes to. */
  ghost function Owner(ring: Ring, key: nat): (a: Address)
    requires ring != map[]
    ensures exists p :: Selects(ring, key, p) && a == ring[p]
  {
    var p := SelectionExistsValue(ring, key);
    ring[p]
  }

  ghost function SelectionExistsValue(ring: Ring, key: nat): (p: nat)
    requires ring != map[]
    ensures Selects(ring, key, p)
  {
    assert exists p :: Selects(ring, key, p) by {
      var p := SelectionExists(ring, key);
    }
    var p :| Selects(ring, key, p);
    p
  }

  lemma SelectionIsUnique(ring: Ring, key: nat, p: nat, q: nat)
    requires Selects(ring, key, p) && Selects(ring, key, q)
    ensures p == q
  {
  }

  // ---- minimal disruption ---------------------------------------------------------------------------

  /** The list rebuilt without `x`. */
  function Without(addrs: seq<Address>, x: Address): seq<Address> {
    if addrs == [] then []
    else
      var last := addrs[|addrs| - 1];
      Without(addrs[..|addrs| - 1], x) + if last == x then [] else [last]
  }

  lemma {:induction false} WithoutIsListed(addrs: seq<Address>, x: Address)
    ensures forall a <- Without(addrs, x) :: a in addrs
  {
    if addrs != [] {
      WithoutIsListed(addrs[..|addrs| - 1], x);
    }
  }

  /** A point not owned by `x` keeps its owner; a point owned by `x` can only fall to another owner of it. */
  lemma {:induction false} OwnersWithout(md5: seq<byte> -> seq<byte>, groups: nat, addrs: seq<Address>, x: Address, p: nat)
    requires FullDigests(md5, groups, addrs) && FullDigests(md5, groups, Without(addrs, x))
    ensures var all, less := LastOwner(md5, groups, addrs, p), LastOwner(md5, groups, Without(addrs, x), p);
            && (all != Some(x) ==> less == all)
            && (less.Some? ==> all.Some?)
  {
    if addrs != [] {
      var init, last := addrs[..|addrs| - 1], addrs[|addrs| - 1];
      WithoutIsListed(init, x);
      OwnersWithout(md5, groups, init, x, p);
      if last == x {
        assert Without(addrs, x) == Without(init, x) + [] == Without(init, x);
      } else {
        var less := Without(addrs, x);
        assert less == Without(init, x) + [last];
        assert less[..|less| - 1] == Without(init, x);
      }
    }
  }

  /** What the theorem needs of two rings, the second rebuilt without `x`. */
  ghost predicate Thinned(ring: Ring, ring': Ring, x: Address) {
    && (forall p: nat :: p in ring && ring[p] != x ==> p in ring' && ring'[p] == ring[p])
    && (forall p: nat :: p in ring' ==> p in ring)
  }

  lemma SelectionSurvives(ring: Ring, ring': Ring, x: Address, key: nat, p: nat)
    requires Thinned(ring, ring', x) && Selects(ring, key, p) && ring[p] != x
    ensures Selects(ring', key, p) && ring'[p] == ring[p]
  {
    if q :| q in ring' && q >= key {
      assert q in ring;
    }
    if q :| q in ring && q >= key {
      assert p >= key;
    }
  }

  /**
   Minimal disruption. If the ring of `addrs` does not send a key to `x`, the ring rebuilt without `x`
   sends it to the same address. Read the other way: adding `x`, anywhere in the list, only moves keys
   to `x`. Collisions of virtual points are allowed; all that is asked of the digest function is that the
   digests read for the addresses of the list are as long as what is read of them (the smaller list
   reads no others: WithoutIsListed).
   */
  lemma MinimalDisruption(md5: seq<byte> -> seq<byte>, groups: nat, addrs: seq<Address>, x: Address,
                          ring: Ring, ring': Ring, key: nat)
    requires FullDigests(md5, groups, addrs) && FullDigests(md5, groups, Without(addrs, x))
    requires IsRing(md5, groups, addrs, ring) && IsRing(md5, groups, Without(addrs, x), ring')
    requires ring != map[]
    ensures Owner(ring, key) != x ==> ring' != map[] && Owner(ring', key) == Owner(ring, key)
  {
    hide LastOwner, HasPoint;
    forall p: nat
      ensures p in ring && ring[p] != x ==> p in ring' && ring'[p] == ring[p]
      ensures p in ring' ==> p in ring
    {
      OwnersWithout(md5, groups, addrs, x, p);
    }
    if Owner(ring, key) != x {
      var p :| Selects(ring, key, p) && Owner(ring, key) == ring[p];
      SelectionSurvives(ring, ring', x, key, p);
      var q :| Selects(ring', key, q) && Owner(ring', key) == ring'[q];
      SelectionIsUnique(ring', key, p, q);
    }
  }

  /** A key is only ever sent to an address of the list. */
  lemma OwnerIsListed(md5: seq<byte> -> seq<byte>, groups: nat, addrs: seq<Address>, ring: Ring, key: nat)
    requires FullDigests(md5, groups, addrs) && IsRing(md5, groups, addrs, ring) && ring != map[]
    ensures Owner(ring, key) in addrs
  {
    var a := Owner(ring, key);
    var p: nat :| Selects(ring, key, p) && a == ring[p];
    LastOwnerIsListed(md5, groups, addrs, p);
  }

  lemma {:induction false} LastOwnerIsListed(md5: seq<byte> -> seq<byte>, groups: nat, addrs: seq<Address>, p: nat)
    requires FullDigests(md5, groups, addrs) && LastOwner(md5, groups, addrs, p).Some?
    ensures LastOwner(md5, groups, addrs, p).value in addrs
  {
    if !HasPoint(md5, groups, addrs[|addrs| - 1], p) {
      LastOwnerIsListed(md5, groups, addrs[..|addrs| - 1], p);
    }
  }

  /** With at least one group and one address there is a ring to select from. */
  lemma RingIsNotEmpty(md5: seq<byte> -> seq<byte>, groups: nat, addrs: seq<Address>, ring: Ring)
    requires FullDigests(md5, groups, addrs) && IsRing(md5, groups, addrs, ring)
    ensures ring != map[] <==> addrs != [] && groups >= 1
  {
    if addrs != [] && groups >= 1 {
      assert FullFor(md5, groups, addrs[|addrs| - 1]);
      assert |md5(addrs[|addrs| - 1] + Decimal(0))| >= 16;
      var p := PointOf(md5, addrs[|addrs| - 1], 0);
      assert HasPoint(md5, groups, addrs[|addrs| - 1], p);
      assert p in ring;
    } else if ring != map[] {
      assert ring.Keys != {};
      var p :| p in ring;
      LastOwnerIsListed(md5, groups, addrs, p);
      NoGroupsNoOwner(md5, addrs, p);
      assert false;
    }
  }

  lemma {:induction false} NoGroupsNoOwner(md5: seq<byte> -> seq<byte>, addrs: seq<Address>, p: nat)
    requires FullDigests(md5, 0, addrs)
    ensures LastOwner(md5, 0, addrs, p).None?
  {
    if addrs != [] {
      NoGroupsNoOwner(md5, addrs[..|addrs| - 1], p);
    }
  }

  // ---- the strategy and its cache ---------------------------------------------------------------------

  const DOT: byte := 46
  const REPLICAS := 160

  /** The least element, as an ordered map finds it. */
  method Least(s: set<nat>) returns (p: nat)
    requires s != {}
    ensures p in s && forall q :: q in s ==> p <= q
  {
    p :| p in s;
    var rest := s - {p};
    while rest != {}
      invariant p in s && rest <= s && forall q :: q in s && q !in rest ==> p <= q
      decreases |rest|
    {
      var q :| q in rest;
      if q < p {
        p := q;
      }
      rest := rest - {q};
    }
  }

  method SelectForKey(ring: Ring, hashCode: nat) returns (a: Address)
    requires ring != map[]
    ensures a == Owner(ring, hashCode)
    ensures exists p ::
              && p in ring && a == ring[p]
              && (if p >= hashCode then forall q :: q in ring && q >= hashCode ==> p <= q
                  else forall q :: q in ring ==> q < hashCode && p <= q)
  {
    var above := set q | q in ring && q >= hashCode;
    var p: nat;
    if above != {} {
      p := Least(above);
      assert p in ring && p >= hashCode;
      assert forall q :: q in ring && q >= hashCode ==> q in above;
    } else {
      assert ring.Keys != {};
      p := Least(ring.Keys);
      assert forall q :: q in ring && q >= hashCode ==> q in above;
    }
    SelectionIsUnique(ring, hashCode, p, SelectionExistsValue(ring, hashCode));
    a := ring[p];
  }

  /** A hash passed through an `int` parameter into a `size_t` field. */
  function Narrow(h: nat): nat {
    var low := h % TWO_32;
    if low <= INT32_MAX then low else low + 0xffff_ffff_0000_0000
  }

  /** Which hashes a stored identity can match: those that survive the narrowing. Any other list is rebuilt each time. */
  lemma OnlySmallHashesHit(current: nat)
    ensures (exists stored: nat :: Narrow(stored) == current) <==>
              current <= INT32_MAX || 0xffff_ffff_8000_0000 <= current < 0x1_0000_0000_0000_0000
  {
    if current <= INT32_MAX || 0xffff_ffff_8000_0000 <= current < 0x1_0000_0000_0000_0000 {
      assert Narrow(current % TWO_32) == current;
    }
  }

  /** A selection: `substr` throws on a name without a dot, and a short digest is read past its end. */
  datatype Choice = NoDot | ShortDigest | Chosen(address: Address)

  /** The part of a name from its first dot on. */
  function FromDot(name: seq<byte>): (r: seq<byte>)
    requires DOT in name
    ensures r != [] && r[0] == DOT && |r| <= |name| && name[|name| - |r|..] == r
  {
    if name[0] == DOT then name else FromDot(name[1..])
  }

  lemma {:induction false} FromDotIs(name: seq<byte>, i: nat)
    requires i < |name| && name[i] == DOT && DOT !in name[..i]
    ensures FromDot(name) == name[i..]
    decreases i
  {
    if i > 0 {
      assert name[0] in name[..i] && name[1..][..i - 1] == name[..i][1..];
      FromDotIs(name[1..], i - 1);
    }
  }

  /** `find('.')`: the first dot, or the length. */
  method FindDot(name: seq<byte>) returns (index: nat)
    ensures index <= |name| && DOT !in name[..index]
    ensures index < |name| <==> DOT in name
    ensures index < |name| ==> name[index] == DOT
  {
    index := 0;
    while index < |name| && name[index] != DOT
      invariant 0 <= index <= |name| && DOT !in name[..index]
    {
      index := index + 1;
    }
    assert index == |name| ==> name[..index] == name;
  }

  datatype Selector = Selector(ring: Ring, identity: nat)

  class ConsistentHashStrategy {
    const md5: seq<byte> -> seq<byte>
    const hashCode: seq<Address> -> nat
    var selectors: map<seq<byte>, Selector>
    ghost var builtFor: map<seq<byte>, seq<Address>>

    ghost predicate Valid()
      reads this
    {
      forall s :: s in selectors ==>
        && s in builtFor
        && FullDigests(md5, REPLICAS / 4, builtFor[s])
        && IsRing(md5, REPLICAS / 4, builtFor[s], selectors[s].ring)
        && selectors[s].identity == Narrow(hashCode(builtFor[s]))
    }

    constructor (md5: seq<byte> -> seq<byte>, hashCode: seq<Address> -> nat)
      ensures Valid() && selectors == map[] && this.md5 == md5 && this.hashCode == hashCode
    {
      this.md5, this.hashCode, selectors, builtFor := md5, hashCode, map[], map[];
    }

    /** A selector whose stored identity is that of the current list was built for that list. */
    ghost predicate IdentityTells(addrs: seq<Address>)
      reads this
    {
      forall s :: s in selectors && s in builtFor && selectors[s].identity == hashCode(addrs) ==> builtFor[s] == addrs
    }

    /** The ring for a service: the stored one if its identity is the list's, else a new one, which is stored. */
    method SelectorFor(serviceName: seq<byte>, addrs: seq<Address>) returns (ring: Ring, fault: bool)
      requires Valid() && IdentityTells(addrs)
      modifies this
      ensures Valid() && (fault <==> !FullDigests(md5, REPLICAS / 4, addrs))
      ensures !fault ==> IsRing(md5, REPLICAS / 4, addrs, ring)
    {
      hide IsRing, FullDigests;
      var identityHashCode := hashCode(addrs);
      if serviceName !in selectors || selectors[serviceName].identity != identityHashCode {
        ring, fault := BuildRing(md5, addrs, REPLICAS);
        if !fault {
          selectors := selectors[serviceName := Selector(ring, Narrow(identityHashCode))];
          builtFor := builtFor[serviceName := addrs];
        }
      } else {
        ring, fault := selectors[serviceName].ring, false;
        assert builtFor[serviceName] == addrs;
      }
    }

    /** The address for a request, as if the ring were built afresh for the current list. */
    method Select(addrs: seq<Address>, fullName: seq<byte>, pbData: seq<byte>) returns (r: Choice)
      requires Valid() && addrs != [] && IdentityTells(addrs)
      modifies this
      ensures Valid()
      ensures r.NoDot? <==> DOT !in fullName
      ensures r.ShortDigest? <==>
                && DOT in fullName
                && (!FullDigests(md5, 40, addrs) || |md5(FromDot(fullName) + pbData)| < 4)
      ensures r.Chosen? ==>
                exists ring ::
                  && IsRing(md5, 40, addrs, ring) && ring != map[]
                  && r.address == Owner(ring, Point(md5(FromDot(fullName) + pbData), 0))
    {
      hide IsRing, FullDigests;
      var index := FindDot(fullName);
      if index == |fullName| {
        return NoDot;
      }
      var serviceName, methodName := fullName[..index], fullName[index..];
      FromDotIs(fullName, index);
      var ring, fault := SelectorFor(serviceName, addrs);
      var digest := md5(methodName + pbData);
      if fault || |digest| < 4 {
        return ShortDigest;
      }
      RingIsNotEmpty(md5, 40, addrs, ring);
      var a := SelectForKey(ring, Point(digest, 0));
      return Chosen(a);
    }
  }
}
