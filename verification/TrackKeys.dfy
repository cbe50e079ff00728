/**
 The byte keys of the two connection trackers (`dnsredir.c`, `ttltrack.c`).
 */
module TrackKeys {
  import opened Common

  type U16 = x: int | 0 <= x < 0x1_0000
  type U32 = x: int | 0 <= x < 0x1_0000_0000
  datatype Addr = Addr(w0: U32, w1: U32, w2: U32, w3: U32)

  type Key = seq<Byte>

  const FOUR: Byte := 52
  const SIX: Byte := 54

  // ipv4_copy_addr, ipv6_copy_addr
  function CopyAddr(v6: bool, a: Addr): Addr {
    if v6 then a else Addr(a.w0, 0, 0, 0)
  }

  // The bytes of a word in memory, the lowest first.
  function B0(w: U32): Byte { w % 0x100 }
  function B1(w: U32): Byte { w / 0x100 % 0x100 }
  function B2(w: U32): Byte { w / 0x1_0000 % 0x100 }
  function B3(w: U32): Byte { w / 0x100_0000 }

  function WordAt(key: Key, i: nat): U32
    requires i + 4 <= |key|
  {
    var b0: int, b1: int, b2: int, b3: int := key[i], key[i + 1], key[i + 2], key[i + 3];
    b0 + 0x100 * b1 + 0x1_0000 * b2 + 0x100_0000 * b3
  }

  function HalfAt(key: Key, i: nat): U16
    requires i + 2 <= |key|
  {
    var b0: int, b1: int := key[i], key[i + 1];
    b0 + 0x100 * b1
  }

  function AddrAt(key: Key, i: nat): Addr
    requires i + 16 <= |key|
  {
    Addr(WordAt(key, i), WordAt(key, i + 4), WordAt(key, i + 8), WordAt(key, i + 12))
  }

  // The 16 bytes of an address.
  function AddrBytes(a: Addr): (s: Key)
    ensures |s| == 16
  {
    [B0(a.w0), B1(a.w0), B2(a.w0), B3(a.w0), B0(a.w1), B1(a.w1), B2(a.w1), B3(a.w1),
     B0(a.w2), B1(a.w2), B2(a.w2), B3(a.w2), B0(a.w3), B1(a.w3), B2(a.w3), B3(a.w3)]
  }

  function HalfBytes(h: U16): (s: Key)
    ensures |s| == 2
  {
    [h % 0x100, h / 0x100]
  }

  lemma WordRound(key: Key, i: nat, w: U32)
    requires i + 4 <= |key| && key[i] == B0(w) && key[i + 1] == B1(w) && key[i + 2] == B2(w) && key[i + 3] == B3(w)
    ensures WordAt(key, i) == w
  {
    var n: int := w;
    assert n == 0x100 * (n / 0x100) + n % 0x100;
    assert n / 0x100 == 0x100 * (n / 0x1_0000) + n / 0x100 % 0x100;
    assert n / 0x1_0000 == 0x100 * (n / 0x100_0000) + n / 0x1_0000 % 0x100;
  }

  // An address stored in a key reads back.
  lemma AddrRound(key: Key, i: nat, a: Addr)
    requires i + 16 <= |key| && key[i..i + 16] == AddrBytes(a)
    ensures AddrAt(key, i) == a
  {
    var s := key[i..i + 16];
    assert key[i] == s[0] && key[i + 1] == s[1] && key[i + 2] == s[2] && key[i + 3] == s[3];
    assert key[i + 4] == s[4] && key[i + 5] == s[5] && key[i + 6] == s[6] && key[i + 7] == s[7];
    assert key[i + 8] == s[8] && key[i + 9] == s[9] && key[i + 10] == s[10] && key[i + 11] == s[11];
    assert key[i + 12] == s[12] && key[i + 13] == s[13] && key[i + 14] == s[14] && key[i + 15] == s[15];
    WordRound(key, i, a.w0);
    WordRound(key, i + 4, a.w1);
    WordRound(key, i + 8, a.w2);
    WordRound(key, i + 12, a.w3);
  }

  lemma HalfRound(key: Key, i: nat, h: U16)
    requires i + 2 <= |key| && key[i..i + 2] == HalfBytes(h)
    ensures HalfAt(key, i) == h
  {
    assert key[i] == key[i..i + 2][0] && key[i + 1] == key[i..i + 2][1];
  }

  // ---- dnsredir.c ---------------------------------------------------------------

  // fill_key_data: tag, source address, source port.
  function UdpKey(v6: bool, src: Addr, sport: U16): (key: Key)
    ensures |key| == 19
  {
    [if v6 then SIX else FOUR] + AddrBytes(CopyAddr(v6, src)) + HalfBytes(sport)
  }

  // fill_data_from_key gives back what the key was made of; an IPv4 address is its first word.
  lemma UdpKeyRound(v6: bool, src: Addr, sport: U16)
    ensures var key := UdpKey(v6, src, sport);
      && (key[0] == SIX <==> v6)
      && CopyAddr(v6, AddrAt(key, 1)) == CopyAddr(v6, src) && HalfAt(key, 17) == sport
  {
    var key := UdpKey(v6, src, sport);
    assert key[1..1 + 16] == AddrBytes(CopyAddr(v6, src));
    assert key[17..17 + 2] == HalfBytes(sport);
    AddrRound(key, 1, CopyAddr(v6, src));
    HalfRound(key, 17, sport);
  }

  // Two flows share a key only if they are the same flow.
  lemma UdpKeyOne(v6: bool, src: Addr, sport: U16, v6': bool, src': Addr, sport': U16)
    ensures UdpKey(v6, src, sport) == UdpKey(v6', src', sport') <==>
      v6 == v6' && CopyAddr(v6, src) == CopyAddr(v6', src') && sport == sport'
  {
    UdpKeyRound(v6, src, sport);
    UdpKeyRound(v6', src', sport');
  }

  // ---- ttltrack.c ---------------------------------------------------------------

  // fill_key_data: tag, both addresses, both ports.
  function TcpKey(v6: bool, src: Addr, dst: Addr, sport: U16, dport: U16): (key: Key)
    ensures |key| == 37
  {
    [if v6 then SIX else FOUR] + AddrBytes(CopyAddr(v6, src)) + AddrBytes(CopyAddr(v6, dst)) +
      HalfBytes(sport) + HalfBytes(dport)
  }

  lemma TcpKeyRound(v6: bool, src: Addr, dst: Addr, sport: U16, dport: U16)
    ensures var key := TcpKey(v6, src, dst, sport, dport);
      && (key[0] == SIX <==> v6)
      && CopyAddr(v6, AddrAt(key, 1)) == CopyAddr(v6, src) && CopyAddr(v6, AddrAt(key, 17)) == CopyAddr(v6, dst)
      && HalfAt(key, 33) == sport && HalfAt(key, 35) == dport
  {
    var key := TcpKey(v6, src, dst, sport, dport);
    assert key[1..1 + 16] == AddrBytes(CopyAddr(v6, src));
    assert key[17..17 + 16] == AddrBytes(CopyAddr(v6, dst));
    assert key[33..33 + 2] == HalfBytes(sport);
    assert key[35] == HalfBytes(dport)[0] && key[36] == HalfBytes(dport)[1];
    assert key[35..35 + 2] == [key[35], key[36]];
    AddrRound(key, 1, CopyAddr(v6, src));
    AddrRound(key, 17, CopyAddr(v6, dst));
    HalfRound(key, 33, sport);
    HalfRound(key, 35, dport);
  }

  lemma TcpKeyOne(v6: bool, src: Addr, dst: Addr, sport: U16, dport: U16,
                  v6': bool, src': Addr, dst': Addr, sport': U16, dport': U16)
    ensures TcpKey(v6, src, dst, sport, dport) == TcpKey(v6', src', dst', sport', dport') <==>
      && v6 == v6' && CopyAddr(v6, src) == CopyAddr(v6', src') && CopyAddr(v6, dst) == CopyAddr(v6', dst')
      && sport == sport' && dport == dport'
  {
    TcpKeyRound(v6, src, dst, sport, dport);
    TcpKeyRound(v6', src', dst', sport', dport');
  }
}
