/**
 The command line flags of GoodbyeDPI that `goodbye.rs` knows, and the numbers that follow them.
 */
module GoodbyeFlags {
  import opened Common

  datatype Flag =
    | Passive | Quic | Host | Space | Mix | WrongSeq | WrongSum | Native | Reverse
    | HttpFrag | HttpsFrag | SetTtl | MinTtl | MaxPayload | DnsPort | Dns6Port
    | AutoTtl | DnsAddr | Dns6Addr
    | Mode1 | Mode5 | Mode6 | Mode7 | Mode8 | Mode9

  function Text(f: Flag): string {
    match f
    case Passive => "-p"
    case Quic => "-q"
    case Host => "-r"
    case Space => "-s"
    case Mix => "-m"
    case HttpFrag => "-f"
    case HttpsFrag => "-e"
    case Mode1 => "-1"
    case Mode5 => "-5"
    case Mode6 => "-6"
    case Mode7 => "-7"
    case Mode8 => "-8"
    case Mode9 => "-9"
    case WrongSeq => "--wrong-seq"
    case WrongSum => "--wrong-chksum"
    case Native => "--native-frag"
    case Reverse => "--reverse-frag"
    case SetTtl => "--set-ttl"
    case MinTtl => "--min-ttl"
    case AutoTtl => "--auto-ttl"
    case MaxPayload => "--max-payload"
    case DnsAddr => "--dns-addr"
    case DnsPort => "--dns-port"
    case Dns6Addr => "--dnsv6-addr"
    case Dns6Port => "--dnsv6-port"
  }

  // The flags of one letter or digit.
  function Short(c: char): Option<Flag> {
    match c
    case 'p' => Some(Passive)
    case 'q' => Some(Quic)
    case 'r' => Some(Host)
    case 's' => Some(Space)
    case 'm' => Some(Mix)
    case 'f' => Some(HttpFrag)
    case 'e' => Some(HttpsFrag)
    case '1' => Some(Mode1)
    case '5' => Some(Mode5)
    case '6' => Some(Mode6)
    case '7' => Some(Mode7)
    case '8' => Some(Mode8)
    case '9' => Some(Mode9)
    case _ => None
  }

  const LONG: seq<Flag> := [
    WrongSeq, WrongSum, Native, Reverse, SetTtl, MinTtl, AutoTtl, MaxPayload, DnsAddr, DnsPort, Dns6Addr, Dns6Port
  ]

  // The flag an argument is, if it is one.
  function Classify(s: string): Option<Flag> {
    if |s| == 2 then (if s[0] == '-' then Short(s[1]) else None) else Among(s, LONG)
  }

  function Among(s: string, fs: seq<Flag>): Option<Flag> {
    if fs == [] then None else if s == Text(fs[0]) then Some(fs[0]) else Among(s, fs[1..])
  }

  lemma LongApart(f: Flag, g: Flag)
    requires f in LONG && g in LONG && f != g
    ensures Text(f) != Text(g)
  {
    var s, t := Text(f), Text(g);
    if |s| == |t| {
      assert s[2] != t[2] || s[6] != t[6] || s[8] != t[8];
    }
  }

  lemma {:induction false} AmongIs(s: string, fs: seq<Flag>, f: Flag)
    requires forall g :: g in fs ==> g in LONG
    ensures Among(s, fs) == Some(f) <==> f in fs && s == Text(f)
  {
    if fs != [] {
      AmongIs(s, fs[1..], f);
      if f in fs && s == Text(f) && f != fs[0] { LongApart(f, fs[0]); }
    }
  }

  // An argument is a flag if and only if it is its text.
  lemma ClassifyIs(s: string, f: Flag)
    ensures Classify(s) == Some(f) <==> s == Text(f)
  {
    if |s| == 2 {
      if Classify(s) == Some(f) {
        assert s == Text(f);
      }
    } else {
      AmongIs(s, LONG, f);
      if s == Text(f) { LongOnes(f); }
    }
  }

  lemma LongOnes(f: Flag)
    requires |Text(f)| != 2
    ensures f in LONG
  {
  }

  // ---- Numbers ------------------------------------------------------------------

  function Digit(d: nat): char
    requires d < 10
  {
    ('0' as int + d) as char
  }

  predicate IsDigit(c: char) {
    '0' <= c <= '9'
  }

  function Decimal(n: nat): (s: string)
    ensures s != [] && forall i :: 0 <= i < |s| ==> IsDigit(s[i])
  {
    if n < 10 then [Digit(n)] else Decimal(n / 10) + [Digit(n % 10)]
  }

  // The value of a string of digits.
  function Value(s: string): Option<nat> {
    if s == [] then Some(0) else
      var k := |s| - 1;
      match Value(s[..k])
      case None => None
      case Some(n) => if IsDigit(s[k]) then Some(10 * n + (s[k] as int - '0' as int)) else None
  }

  // Parsing an unsigned number that may be `max` at most: digits, with a plus sign or without.
  function ParseNumber(s: string, max: nat): Option<nat> {
    var digits := if s != [] && s[0] == '+' then s[1..] else s;
    if digits == [] then None else
      match Value(digits)
      case None => None
      case Some(n) => if n <= max then Some(n) else None
  }

  lemma {:induction false} ValueDecimal(n: nat)
    ensures Value(Decimal(n)) == Some(n)
  {
    if n < 10 {
      assert Decimal(n)[..0] == [];
    } else {
      ValueDecimal(n / 10);
      var s := Decimal(n);
      assert s[..|s| - 1] == Decimal(n / 10) && s[|s| - 1] == Digit(n % 10);
    }
  }

  lemma NumberRound(n: nat, max: nat)
    ensures ParseNumber(Decimal(n), max) == if n <= max then Some(n) else None
  {
    ValueDecimal(n);
    assert IsDigit(Decimal(n)[0]);
  }
}
