/** IP addresses and CIDR blocks. A block holds the addresses of its width that start with its
    prefix (section 3.1 of RFC 4632), as net.IPNet.Contains decides. */
module Addresses {
  import opened Text

  /** An address: the text net.IP prints and its bits, none for a nil address. */
  datatype IP = IP(text: string, bits: seq<bool>)

  datatype Net = Net(width: nat, prefix: seq<bool>)

  predicate Contains(n: Net, ip: IP) { |ip.bits| == n.width && n.prefix <= ip.bits }

  predicate AnyContains(ns: seq<Net>, ip: IP) { exists n :: n in ns && Contains(n, ip) }

  /** Two blocks are nested or disjoint. */
  function Meet(a: Net, b: Net): Option<Net> {
    if a.width != b.width then None
    else if a.prefix <= b.prefix then Some(b)
    else if b.prefix <= a.prefix then Some(a)
    else None
  }

  lemma MeetIsIntersection(a: Net, b: Net, ip: IP)
    ensures Contains(a, ip) && Contains(b, ip) <==> Meet(a, b).Some? && Contains(Meet(a, b).value, ip)
  {
    if Contains(a, ip) && Contains(b, ip) {
      if |a.prefix| <= |b.prefix| {
        assert a.prefix == ip.bits[..|a.prefix|] == b.prefix[..|a.prefix|];
      } else {
        assert b.prefix == ip.bits[..|b.prefix|] == a.prefix[..|b.prefix|];
      }
    }
  }

  function MeetAll(a: Net, bs: seq<Net>): seq<Net> {
    if bs == [] then [] else
      (if Meet(a, bs[0]).Some? then [Meet(a, bs[0]).value] else []) + MeetAll(a, bs[1..])
  }

  /** iputils.IntersectCIDRs: every overlap of a block of one list with a block of the other. */
  function IntersectNets(a: seq<Net>, b: seq<Net>): seq<Net> {
    if a == [] then [] else MeetAll(a[0], b) + IntersectNets(a[1..], b)
  }

  lemma {:induction false} MeetAllMeaning(a: Net, b: seq<Net>, ip: IP)
    ensures AnyContains(MeetAll(a, b), ip) <==> Contains(a, ip) && AnyContains(b, ip)
  {
    if b != [] {
      MeetIsIntersection(a, b[0], ip);
      MeetAllMeaning(a, b[1..], ip);
      assert forall n :: n in b <==> n == b[0] || n in b[1..];
    }
  }

  lemma {:induction false} IntersectNetsMeaning(a: seq<Net>, b: seq<Net>, ip: IP)
    ensures AnyContains(IntersectNets(a, b), ip) <==> AnyContains(a, ip) && AnyContains(b, ip)
  {
    if a != [] {
      MeetAllMeaning(a[0], b, ip);
      IntersectNetsMeaning(a[1..], b, ip);
      assert forall n :: n in a <==> n == a[0] || n in a[1..];
    }
  }

  /** The address starts with these bits and has this width. */
  predicate Within(bits: seq<bool>, width: nat, prefix: seq<bool>) {
    |bits| == width && |prefix| <= width && forall k :: 0 <= k < |prefix| ==> bits[k] == prefix[k]
  }

  lemma ContainsMeaning(n: Net, ip: IP)
    ensures Contains(n, ip) <==> Within(ip.bits, n.width, n.prefix)
  {
    if Within(ip.bits, n.width, n.prefix) {
      assert n.prefix == ip.bits[..|n.prefix|];
    }
  }
}
