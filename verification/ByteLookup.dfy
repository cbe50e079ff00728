/**
 The lookups of `extend.c` on bytes: networks and addresses as bit strings, names as characters.
 */
module ByteLookup {
  import opened Common
  import opened KeyOrder
  import opened KeyCompare
  import opened PoolKeys
  import opened KavlBalance
  import opened Mpool
  import opened Matching

  // ---- Addresses ----------------------------------------------------------------

  // The first `len` bits of some bytes.
  datatype Net = Net(data: seq<Byte>, len: nat)

  ghost predicate Proper(net: Net) {
    net.len <= 8 * |net.data|
  }

  // The address lies in the network: its first bits are those of the network.
  ghost predicate Inside(addr: seq<Byte>, net: Net)
    requires Proper(net)
  {
    net.len <= 8 * |addr| && forall k :: 0 <= k < net.len ==> Bit(addr, k) == Bit(net.data, k)
  }

  lemma {:induction false} BitWordAt(data: seq<Byte>, n: nat, k: nat)
    requires k < n <= 8 * |data|
    ensures BitWord(data, n)[k] == Bit(data, k)
  {
    if k < n - 1 { BitWordAt(data, n - 1, k); }
  }

  lemma InsideIs(addr: seq<Byte>, net: Net)
    requires Proper(net) && net.len <= 8 * |addr|
    ensures Inside(addr, net) <==> Same(Bits, BitWord(net.data, net.len), BitWord(addr, 8 * |addr|))
  {
    var a, b := BitWord(net.data, net.len), BitWord(addr, 8 * |addr|);
    forall k | 0 <= k < net.len
      ensures a[k] == Bit(net.data, k) && b[k] == Bit(addr, k)
    {
      BitWordAt(net.data, net.len, k);
      BitWordAt(addr, 8 * |addr|, k);
    }
    assert Extends(a, b) <==> a == b[..|a|];
    if |a| == |b| { assert b[..|a|] == b; }
    if Inside(addr, net) {
      assert forall k :: 0 <= k < |a| ==> a[k] == b[..|a|][k];
      assert a == b[..|a|];
    } else {
      var k :| 0 <= k < net.len && Bit(addr, k) != Bit(net.data, k);
      assert a[k] != b[k];
    }
  }

  function WordOf(net: Net): Word {
    if net.len <= 8 * |net.data| then BitWord(net.data, net.len) else []
  }

  ghost predicate AllProper(nets: seq<Net>) {
    forall i :: 0 <= i < |nets| ==> Proper(nets[i])
  }

  // An address is found exactly if it compares equal to a network of the list: if it lies in one, where
  // none of them is longer than the address.
  method FindAddress(nets: seq<Net>, addr: seq<Byte>) returns (b: bool)
    requires AllProper(nets) && |nets| + 1 < SIZE_LIMIT
    ensures b <==>
      exists i :: 0 <= i < |nets| && Proper(nets[i]) && BitCmp(nets[i].data, nets[i].len, addr, 8 * |addr|) == 0
    ensures (forall i :: 0 <= i < |nets| ==> nets[i].len <= 8 * |addr|) ==>
      (b <==> exists i :: 0 <= i < |nets| && Proper(nets[i]) && Inside(addr, nets[i]))
  {
    var words := [];
    for i := 0 to |nets|
      invariant |words| == i && forall j :: 0 <= j < i ==> words[j] == WordOf(nets[j])
    {
      words := words + [WordOf(nets[i])];
    }
    var pool := Load(Bits, words);
    var w := BitWord(addr, 8 * |addr|);
    b := CheckIp(pool, w, Elems(words));
    forall i | 0 <= i < |nets|
      ensures BitCmp(nets[i].data, nets[i].len, addr, 8 * |addr|) == 0 <==> Same(Bits, words[i], w)
      ensures nets[i].len <= 8 * |addr| ==> (Inside(addr, nets[i]) <==> Same(Bits, words[i], w))
    {
      assert Proper(nets[i]) && words[i] == BitWord(nets[i].data, nets[i].len);
      CompareSign(Bits, words[i], w);
      if nets[i].len <= 8 * |addr| { InsideIs(addr, nets[i]); }
    }
    SomeWord(words, w);
  }

  lemma SomeWord(words: seq<Word>, w: Word)
    ensures (exists a :: a in Elems(words) && Same(Bits, a, w)) <==>
      exists i :: 0 <= i < |words| && Same(Bits, words[i], w)
  {
  }

  // ---- Names --------------------------------------------------------------------

  // `tail` is what `name` ends with.
  ghost predicate EndsWith(name: seq<Byte>, tail: seq<Byte>) {
    |tail| <= |name| && name[|name| - |tail|..] == tail
  }

  // The host is the domain or one of its subdomains.
  ghost predicate Belongs(host: seq<Byte>, domain: seq<Byte>) {
    EndsWith(host, domain) && (|domain| < |host| ==> host[|host| - |domain| - 1] == DOT)
  }

  // `long` ends with `short` after a character that sorts before the dot.
  ghost predicate Splits(long: seq<Byte>, short: seq<Byte>) {
    EndsWith(long, short) && |short| < |long| && Signed(long[|long| - |short| - 1]) < DOT
  }

  lemma EndsIs(name: seq<Byte>, tail: seq<Byte>)
    ensures EndsWith(name, tail) <==> |tail| <= |name| && Extends(HostWord(tail), HostWord(name))
    ensures |tail| < |name| ==> HostWord(name)[|tail|] == Signed(name[|name| - |tail| - 1])
  {
    var a, b := HostWord(tail), HostWord(name);
    if |tail| <= |name| {
      var end := name[|name| - |tail|..];
      if Extends(a, b) {
        forall i | 0 <= i < |tail|
          ensures end[i] == tail[i]
        {
          var k := |tail| - 1 - i;
          assert a[k] == b[..|a|][k];
          assert Signed(tail[i]) == Signed(name[|name| - 1 - k]);
        }
        assert end == tail;
      }
      if end == tail {
        forall k | 0 <= k < |a|
          ensures a[k] == b[k]
        {
          assert end[|tail| - 1 - k] == name[|name| - 1 - k];
        }
        assert a == b[..|a|];
      }
    }
  }

  lemma BelongsIs(host: seq<Byte>, domain: seq<Byte>)
    ensures Belongs(host, domain) <==> Covers(Host, HostWord(domain), HostWord(host))
  {
    EndsIs(host, domain);
    var a, b := HostWord(domain), HostWord(host);
    if |a| == |b| { assert b[..|a|] == b; }
  }

  lemma SplitsIs(long: seq<Byte>, short: seq<Byte>)
    ensures Splits(long, short) <==> Gap(HostWord(short), HostWord(long))
  {
    EndsIs(long, short);
  }

  ghost predicate NoneSplits(names: seq<seq<Byte>>) {
    forall i, j :: 0 <= i < |names| && 0 <= j < |names| ==> !Splits(names[i], names[j])
  }

  lemma NoneSplitsIs(names: seq<seq<Byte>>, words: seq<Word>)
    requires NoneSplits(names) && |words| == |names| && forall j :: 0 <= j < |names| ==> words[j] == HostWord(names[j])
    ensures NoGap(Elems(words))
  {
    forall a, b | a in Elems(words) && b in Elems(words)
      ensures !Gap(a, b)
    {
      var i :| 0 <= i < |words| && words[i] == a;
      var j :| 0 <= j < |words| && words[j] == b;
      SplitsIs(names[j], names[i]);
    }
  }

  // A host is recognised exactly if it belongs to a domain of the list, where none splits another.
  method FindHost(names: seq<seq<Byte>>, host: seq<Byte>) returns (b: bool)
    requires |names| + 1 < SIZE_LIMIT
    ensures NoneSplits(names) ==> (b <==> exists i :: 0 <= i < |names| && Belongs(host, names[i]))
    ensures b ==> exists i :: 0 <= i < |names| && Belongs(host, names[i])
  {
    var words := [];
    for i := 0 to |names|
      invariant |words| == i && forall j :: 0 <= j < i ==> words[j] == HostWord(names[j])
    {
      words := words + [HostWord(names[i])];
    }
    var pool := Load(Host, words);
    var w := HostWord(host);
    forall i | 0 <= i < |names|
      ensures Belongs(host, names[i]) <==> Covers(Host, words[i], w)
    {
      BelongsIs(host, names[i]);
    }
    if NoneSplits(names) { NoneSplitsIs(names, words); }
    b := CheckHost(pool, w, Elems(words));
    SomeName(words, w);
  }

  lemma SomeName(words: seq<Word>, w: Word)
    ensures (exists a :: a in Elems(words) && Covers(Host, a, w)) <==>
      exists i :: 0 <= i < |words| && Covers(Host, words[i], w)
  {
  }
}
