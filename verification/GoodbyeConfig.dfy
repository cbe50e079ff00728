/**
 `GoodbyeConfig` of `engine_adapter/goodbye.rs`: reading a profile's arguments and printing the
 command line of the GoodbyeDPI worker.
 */
module GoodbyeConfig {
  import opened Common
  import opened GoodbyeFlags

  // The switches that are on, the numbers and the texts that are set, and the arguments not known.
  datatype Config = Config(on: set<Flag>, numbers: map<Flag, nat>, texts: map<Flag, string>, custom: seq<string>)

  const DEFAULT: Config := Config({}, map[], map[], [])

  const AUTO_TTL_DEFAULT := "1-4-10"

  datatype Error = EngineMismatch(target: string) | InvalidArgument(flag: Flag, value: string)
  datatype Result = Ok(config: Config) | Err(error: Error)

  // ---- Single settings ----------------------------------------------------------

  predicate Numeric(f: Flag) {
    f.HttpFrag? || f.HttpsFrag? || f.SetTtl? || f.MinTtl? || f.MaxPayload? || f.DnsPort? || f.Dns6Port?
  }

  predicate Address(f: Flag) {
    f.DnsAddr? || f.Dns6Addr?
  }

  // The largest value of the field's type.
  function Largest(f: Flag): nat {
    if f.SetTtl? || f.MinTtl? then 0xFF else if f.MaxPayload? then 0xFFFF_FFFF else 0xFFFF
  }

  predicate Textual(f: Flag) {
    Address(f) || f.AutoTtl?
  }

  // A fixed TTL and an automatic one displace each other.
  function SetNumber(c: Config, f: Flag, n: nat): Config {
    c.(numbers := c.numbers[f := n], texts := if f.SetTtl? then c.texts - {AutoTtl} else c.texts)
  }

  function SetText(c: Config, f: Flag, s: string): Config {
    c.(texts := c.texts[f := s], numbers := if f.AutoTtl? then c.numbers - {SetTtl} else c.numbers)
  }

  // The fragmentation that all the newer modes share.
  function Fragments(c: Config): Config {
    c.(on := c.on + {Native, Reverse}, numbers := c.numbers[HttpFrag := 2][HttpsFrag := 2][MaxPayload := 1200])
  }

  function SwitchOn(c: Config, fs: set<Flag>): Config {
    c.(on := c.on + fs)
  }

  // What the last four modes turn on besides.
  function ModeSwitches(f: Flag): set<Flag> {
    if f.Mode6? then {WrongSeq} else if f.Mode7? then {WrongSum} else if f.Mode8? then {WrongSeq, WrongSum}
    else {WrongSeq, WrongSum, Quic}
  }

  function TurnOn(c: Config, f: Flag): Config {
    match f
    case Mode1 => SwitchOn(c, {Passive, Host, Space}).(numbers := c.numbers[HttpFrag := 2][HttpsFrag := 2])
    case Mode5 => var d := SetText(Fragments(c), AutoTtl, AUTO_TTL_DEFAULT); d.(on := d.on - {WrongSeq, WrongSum, Quic})
    case Mode6 | Mode7 | Mode8 | Mode9 => SwitchOn(Fragments(c), ModeSwitches(f))
    case _ => SwitchOn(c, {f})
  }

  // ---- Reading ------------------------------------------------------------------

  predicate Dashed(s: string) {
    s != [] && s[0] == '-'
  }

  // Whether a flag takes the argument after it as its value.
  predicate TakesValue(f: Flag, rest: seq<string>) {
    rest != [] && (Numeric(f) || Address(f) || (f.AutoTtl? && !Dashed(rest[0])))
  }

  predicate Consumes(arg: string, rest: seq<string>) {
    Classify(arg).Some? && TakesValue(Classify(arg).value, rest)
  }

  // The configuration after one flag; a flag whose value is missing changes nothing.
  function ApplyFlag(c: Config, f: Flag, rest: seq<string>): Result {
    if f.AutoTtl? then Ok(SetText(c, f, if TakesValue(f, rest) then rest[0] else AUTO_TTL_DEFAULT))
    else if !Numeric(f) && !Address(f) then Ok(TurnOn(c, f))
    else if rest == [] then Ok(c)
    else if Address(f) then Ok(SetText(c, f, rest[0]))
    else
      match ParseNumber(rest[0], Largest(f))
      case None => Err(InvalidArgument(f, rest[0]))
      case Some(n) => Ok(SetNumber(c, f, n))
  }

  function ApplyArg(c: Config, arg: string, rest: seq<string>): Result {
    match Classify(arg)
    case None => Ok(c.(custom := c.custom + [arg]))
    case Some(f) => ApplyFlag(c, f, rest)
  }

  function ParseFrom(c: Config, args: seq<string>): Result
    decreases |args|
  {
    if args == [] then Ok(c) else
      match ApplyArg(c, args[0], args[1..])
      case Err(e) => Err(e)
      case Ok(c') => ParseFrom(c', args[if Consumes(args[0], args[1..]) then 2 else 1..])
  }

  function Parse(args: seq<string>): Result {
    ParseFrom(DEFAULT, args)
  }

  function Lower(s: string): string {
    seq(|s|, i requires 0 <= i < |s| => if 'A' <= s[i] <= 'Z' then (s[i] as int + 32) as char else s[i])
  }

  // from_profile
  method FromProfile(target: string, args: seq<string>) returns (r: Result)
    ensures r == if Lower(target) in {"goodbye", "goodbyedpi"} then Parse(args) else Err(EngineMismatch(target))
  {
    var name := Lower(target);
    if name != "goodbye" && name != "goodbyedpi" {
      return Err(EngineMismatch(target));
    }
    var config, i := DEFAULT, 0;
    while i < |args|
      invariant 0 <= i <= |args| && ParseFrom(config, args[i..]) == Parse(args)
      decreases |args| - i
    {
      var arg, rest := args[i], args[i + 1..];
      assert args[i..][0] == arg && args[i..][1..] == rest;
      var next := ApplyArg(config, arg, rest);
      if next.Err? {
        return next;
      }
      config := next.config;
      i := i + 1;
      if Consumes(arg, rest) {
        assert args[i - 1..][2..] == args[i + 1..];
        i := i + 1;
      }
    }
    r := Ok(config);
  }

  // ---- What the arguments mean --------------------------------------------------

  lemma ReadOne(c: Config, f: Flag)
    requires !Numeric(f) && !Textual(f)
    ensures ParseFrom(c, [Text(f)]) == Ok(TurnOn(c, f))
  {
    ClassifyIs(Text(f), f);
    assert [Text(f)][1..] == [];
  }

  // The modes, on top of any configuration.
  lemma Mode1Means(c: Config)
    ensures ParseFrom(c, ["-1"]) ==
      Ok(Config(c.on + {Passive, Host, Space}, c.numbers[HttpFrag := 2][HttpsFrag := 2], c.texts, c.custom))
  {
    ReadOne(c, Mode1);
  }

  lemma Mode5Means(c: Config)
    ensures ParseFrom(c, ["-5"]) ==
      Ok(Config((c.on + {Native, Reverse}) - {WrongSeq, WrongSum, Quic},
                c.numbers[HttpFrag := 2][HttpsFrag := 2][MaxPayload := 1200] - {SetTtl},
                c.texts[AutoTtl := "1-4-10"], c.custom))
  {
    hide ParseFrom;
    ReadOne(c, Mode5);
  }

  // The later modes differ in what they turn on: a wrong sequence number, a wrong checksum, both, or both
  // and no QUIC.
  lemma LaterModesMean(c: Config, f: Flag, on: set<Flag>)
    requires (f, on) in {(Mode6, {WrongSeq}), (Mode7, {WrongSum}), (Mode8, {WrongSeq, WrongSum}),
                         (Mode9, {WrongSeq, WrongSum, Quic})}
    ensures Text(Mode6) == "-6" && Text(Mode7) == "-7" && Text(Mode8) == "-8" && Text(Mode9) == "-9"
    ensures ParseFrom(c, [Text(f)]) ==
      Ok(Config(c.on + {Native, Reverse} + on, c.numbers[HttpFrag := 2][HttpsFrag := 2][MaxPayload := 1200], c.texts,
                c.custom))
  {
    hide ParseFrom;
    ReadOne(c, f);
  }

  // A number that does not fit its field is refused.
  lemma LimitsMean(c: Config, n: nat)
    ensures ParseFrom(c, ["--set-ttl", Decimal(n)]).Ok? <==> n < 0x100
    ensures ParseFrom(c, ["--min-ttl", Decimal(n)]).Ok? <==> n < 0x100
    ensures ParseFrom(c, ["--max-payload", Decimal(n)]).Ok? <==> n < 0x1_0000_0000
    ensures ParseFrom(c, ["-f", Decimal(n)]).Ok? <==> n < 0x1_0000
    ensures ParseFrom(c, ["-e", Decimal(n)]).Ok? <==> n < 0x1_0000
    ensures ParseFrom(c, ["--dns-port", Decimal(n)]).Ok? <==> n < 0x1_0000
    ensures ParseFrom(c, ["--dnsv6-port", Decimal(n)]).Ok? <==> n < 0x1_0000
  {
    hide Decimal;
    hide SetNumber;
    hide ParseFrom;
    ReadNumber(c, SetTtl, n);
    ReadNumber(c, MinTtl, n);
    ReadNumber(c, MaxPayload, n);
    ReadNumber(c, HttpFrag, n);
    ReadNumber(c, HttpsFrag, n);
    ReadNumber(c, DnsPort, n);
    ReadNumber(c, Dns6Port, n);
  }

  // A flag whose value is missing changes nothing, but for the automatic TTL, which has a default.
  lemma ValueMissing(c: Config, f: Flag)
    requires Numeric(f) || Textual(f)
    ensures ParseFrom(c, [Text(f)]) ==
      Ok(if f.AutoTtl? then c.(texts := c.texts[AutoTtl := "1-4-10"], numbers := c.numbers - {SetTtl}) else c)
  {
    ClassifyIs(Text(f), f);
    assert [Text(f)][1..] == [];
  }

  lemma ReadNumber(c: Config, f: Flag, n: nat)
    requires Numeric(f)
    ensures ParseFrom(c, [Text(f), Decimal(n)]) ==
      if n <= Largest(f) then Ok(SetNumber(c, f, n)) else Err(InvalidArgument(f, Decimal(n)))
  {
    var args := [Text(f), Decimal(n)];
    ClassifyIs(Text(f), f);
    NumberRound(n, Largest(f));
    assert args[1..] == [Decimal(n)] && args[2..] == [];
  }

  // ---- What reading can lead to -------------------------------------------------

  predicate Switch(f: Flag) {
    !Numeric(f) && !Textual(f) && Rank(f) < SLOTS
  }

  ghost predicate Switches(on: set<Flag>) {
    forall f :: f in on ==> Switch(f)
  }

  ghost predicate Numbers(m: map<Flag, nat>) {
    forall f :: f in m ==> Numeric(f) && m[f] <= Largest(f)
  }

  ghost predicate Texts(m: map<Flag, string>) {
    (forall f :: f in m ==> Textual(f)) && (AutoTtl in m ==> !Dashed(m[AutoTtl]))
  }

  ghost predicate Unknown(args: seq<string>) {
    forall i :: 0 <= i < |args| ==> Classify(args[i]) == None
  }

  // A configuration that came from arguments.
  ghost predicate Canonical(c: Config) {
    && Switches(c.on) && Numbers(c.numbers) && Texts(c.texts) && Unknown(c.custom)
    && !(SetTtl in c.numbers && AutoTtl in c.texts)
  }

  lemma SwitchOnKeeps(c: Config, fs: set<Flag>)
    requires Canonical(c) && Switches(fs)
    ensures Canonical(SwitchOn(c, fs))
  {
  }

  lemma FragmentsKeeps(c: Config)
    requires Canonical(c)
    ensures Canonical(Fragments(c))
  {
    SwitchOnKeeps(c, {Native, Reverse});
  }

  lemma Mode1Keeps(c: Config)
    requires Canonical(c)
    ensures Canonical(TurnOn(c, Mode1))
  {
    SwitchOnKeeps(c, {Passive, Host, Space});
  }

  lemma Mode5Keeps(c: Config)
    requires Canonical(c)
    ensures Canonical(TurnOn(c, Mode5))
  {
    FragmentsKeeps(c);
    SetTextKeeps(Fragments(c), AutoTtl, AUTO_TTL_DEFAULT);
  }

  lemma ModeSwitchesAre(f: Flag)
    ensures Switches(ModeSwitches(f))
  {
  }

  // The newer modes differ in the switches they turn on.
  lemma ModeKeeps(c: Config, f: Flag)
    requires Canonical(c)
    ensures Canonical(SwitchOn(Fragments(c), ModeSwitches(f)))
  {
    FragmentsKeeps(c);
    ModeSwitchesAre(f);
    SwitchOnKeeps(Fragments(c), ModeSwitches(f));
  }

  lemma TurnOnKeeps(c: Config, f: Flag)
    requires Canonical(c) && !Numeric(f) && !Textual(f)
    ensures Canonical(TurnOn(c, f))
  {
    if f.Mode1? {
      Mode1Keeps(c);
    } else if f.Mode5? {
      Mode5Keeps(c);
    } else if f.Mode6? || f.Mode7? || f.Mode8? || f.Mode9? {
      ModeKeeps(c, f);
    } else {
      SwitchOnKeeps(c, {f});
    }
  }

  lemma SetNumberKeeps(c: Config, f: Flag, n: nat)
    requires Canonical(c) && Numeric(f) && n <= Largest(f)
    ensures Canonical(SetNumber(c, f, n))
  {
  }

  lemma SetTextKeeps(c: Config, f: Flag, s: string)
    requires Canonical(c) && Textual(f) && (f.AutoTtl? ==> !Dashed(s))
    ensures Canonical(SetText(c, f, s))
  {
  }

  lemma FlagKeeps(c: Config, f: Flag, rest: seq<string>)
    requires Canonical(c) && ApplyFlag(c, f, rest).Ok?
    ensures Canonical(ApplyFlag(c, f, rest).config)
  {
    if f.AutoTtl? {
      SetTextKeeps(c, f, if TakesValue(f, rest) then rest[0] else AUTO_TTL_DEFAULT);
    } else if !Numeric(f) && !Address(f) {
      TurnOnKeeps(c, f);
    } else if rest != [] {
      if Address(f) {
        SetTextKeeps(c, f, rest[0]);
      } else {
        SetNumberKeeps(c, f, ParseNumber(rest[0], Largest(f)).value);
      }
    }
  }

  lemma ApplyKeeps(c: Config, arg: string, rest: seq<string>)
    requires Canonical(c) && ApplyArg(c, arg, rest).Ok?
    ensures Canonical(ApplyArg(c, arg, rest).config)
  {
    if Classify(arg).Some? {
      FlagKeeps(c, Classify(arg).value, rest);
    }
  }

  lemma {:induction false} ParseKeeps(c: Config, args: seq<string>)
    requires Canonical(c) && ParseFrom(c, args).Ok?
    ensures Canonical(ParseFrom(c, args).config)
    decreases |args|
  {
    if args != [] {
      ApplyKeeps(c, args[0], args[1..]);
      ParseKeeps(ApplyArg(c, args[0], args[1..]).config, args[if Consumes(args[0], args[1..]) then 2 else 1..]);
    }
  }

  // A fixed and an automatic TTL are never both set.
  lemma TtlExclusive(args: seq<string>)
    requires Parse(args).Ok?
    ensures SetTtl !in Parse(args).config.numbers || AutoTtl !in Parse(args).config.texts
  {
    ParseKeeps(DEFAULT, args);
  }

  // ---- Printing -----------------------------------------------------------------

  datatype Setting = On(f: Flag) | Number(f: Flag, n: nat) | Words(f: Flag, s: string)

  ghost predicate Settable(x: Setting) {
    match x
    case On(f) => Switch(f)
    case Number(f, n) => Numeric(f) && n <= Largest(f)
    case Words(f, s) => Textual(f) && (f.AutoTtl? ==> !Dashed(s))
  }

  function ArgsOf(x: Setting): seq<string> {
    match x
    case On(f) => [Text(f)]
    case Number(f, n) => [Text(f), Decimal(n)]
    case Words(f, s) => [Text(f), s]
  }

  ghost function Assign(c: Config, x: Setting): Config {
    match x
    case On(f) => TurnOn(c, f)
    case Number(f, n) => SetNumber(c, f, n)
    case Words(f, s) => SetText(c, f, s)
  }

  // Reading a printed setting back.
  lemma ReadSetting(c: Config, x: Setting, rest: seq<string>)
    requires Settable(x)
    ensures ParseFrom(c, ArgsOf(x) + rest) == ParseFrom(Assign(c, x), rest)
  {
    var args := ArgsOf(x) + rest;
    ClassifyIs(Text(x.f), x.f);
    assert args[0] == Text(x.f);
    if x.On? {
      assert args[1..] == rest;
    } else {
      if x.Number? { NumberRound(x.n, Largest(x.f)); }
      assert args[1..][0] == ArgsOf(x)[1] && args[2..] == rest;
    }
  }

  // The arguments that are not known are collected in order.
  lemma {:induction false} ReadCustom(c: Config, args: seq<string>)
    requires Unknown(args)
    ensures ParseFrom(c, args) == Ok(c.(custom := c.custom + args))
    decreases |args|
  {
    if args == [] {
      assert c.custom + args == c.custom;
    } else {
      assert ParseFrom(c, args) == ParseFrom(c.(custom := c.custom + [args[0]]), args[1..]);
      ReadCustom(c.(custom := c.custom + [args[0]]), args[1..]);
      assert c.custom + [args[0]] + args[1..] == c.custom + args;
    }
  }

  // The flags in the order they are printed, those of the DNS redirect last.
  const ORDER: seq<Flag> := [Passive, Quic, Host, Space, Mix, HttpFrag, HttpsFrag, Native, Reverse, WrongSeq, WrongSum,
                             SetTtl, AutoTtl, MinTtl, MaxPayload, DnsAddr, DnsPort, Dns6Addr, Dns6Port]
  const SLOTS := 19
  const DNS_SLOT := 15
  const DNS_FLAGS: set<Flag> := {DnsAddr, DnsPort, Dns6Addr, Dns6Port}

  // The place of a flag in that order; the modes have none.
  function Rank(f: Flag): nat {
    match f
    case Passive => 0
    case Quic => 1
    case Host => 2
    case Space => 3
    case Mix => 4
    case HttpFrag => 5
    case HttpsFrag => 6
    case Native => 7
    case Reverse => 8
    case WrongSeq => 9
    case WrongSum => 10
    case SetTtl => 11
    case AutoTtl => 12
    case MinTtl => 13
    case MaxPayload => 14
    case DnsAddr => 15
    case DnsPort => 16
    case Dns6Addr => 17
    case Dns6Port => 18
    case _ => SLOTS
  }

  lemma RankIs(k: nat, f: Flag)
    requires k < SLOTS
    ensures |ORDER| == SLOTS && (Rank(f) == k <==> ORDER[k] == f)
  {
  }

  // What is printed for a flag; a fixed TTL hides an automatic one.
  function SettingOf(c: Config, f: Flag): Option<Setting> {
    if f in c.on then Some(On(f))
    else if f in c.numbers then Some(Number(f, c.numbers[f]))
    else if f in c.texts && !(f.AutoTtl? && SetTtl in c.numbers) then Some(Words(f, c.texts[f]))
    else None
  }

  function SlotArgs(c: Config, k: nat): seq<string> {
    if k >= |ORDER| then [] else
      match SettingOf(c, ORDER[k])
      case None => []
      case Some(x) => ArgsOf(x)
  }

  // The command line from slot `k` on; `end` is the first slot that is left out.
  function PrintFrom(c: Config, k: nat, end: nat): seq<string>
    decreases end - k
  {
    if k >= end then c.custom else SlotArgs(c, k) + PrintFrom(c, k + 1, end)
  }

  function End(dns: bool): nat {
    if dns then SLOTS else DNS_SLOT
  }

  function Print(c: Config, dns: bool): seq<string> {
    PrintFrom(c, 0, End(dns))
  }

  // to_command_args_filtered
  method ToCommandArgs(c: Config, dns: bool) returns (args: seq<string>)
    ensures args == Print(c, dns)
  {
    args := PushSlots(c, 0, End(dns));
    args := PushCustom(args, c.custom);
  }

  method PushSlots(c: Config, first: nat, end: nat) returns (args: seq<string>)
    requires first <= end
    ensures args + c.custom == PrintFrom(c, first, end)
  {
    args := [];
    for k := first to end
      invariant args + PrintFrom(c, k, end) == PrintFrom(c, first, end)
    {
      args := args + SlotArgs(c, k);
    }
  }

  method PushCustom(front: seq<string>, custom: seq<string>) returns (args: seq<string>)
    ensures args == front + custom
  {
    args := front;
    for i := 0 to |custom|
      invariant args == front + custom[..i]
    {
      args := args + [custom[i]];
    }
  }

  // ---- The round trip -----------------------------------------------------------

  // What has been read back after `k` slots.
  ghost function UptoSet(on: set<Flag>, k: int): set<Flag> {
    set f | f in on && Rank(f) < k
  }

  ghost function UptoMap<T>(m: map<Flag, T>, k: int): map<Flag, T> {
    map f | f in m && Rank(f) < k :: m[f]
  }

  ghost function Upto(c: Config, k: int): Config {
    Config(UptoSet(c.on, k), UptoMap(c.numbers, k), UptoMap(c.texts, k), [])
  }

  lemma UptoNext<T>(on: set<Flag>, m: map<Flag, T>, k: nat, f: Flag)
    requires k < SLOTS && Rank(f) == k
    ensures UptoSet(on, k + 1) == if f in on then UptoSet(on, k) + {f} else UptoSet(on, k)
    ensures UptoMap(m, k + 1) == if f in m then UptoMap(m, k)[f := m[f]] else UptoMap(m, k)
  {
    hide Rank;
    forall g
      ensures Rank(g) < k + 1 <==> Rank(g) < k || g == f
    {
      RankIs(k, g);
      RankIs(k, f);
    }
  }

  lemma UptoAll<T>(on: set<Flag>, m: map<Flag, T>, k: nat, out: set<Flag>)
    requires forall f :: f in on || f in m ==> (Rank(f) < k <==> f !in out)
    ensures UptoSet(on, k) == on - out && UptoMap(m, k) == m - out
  {
  }

  // Of the three kinds of flags, one is in no more than one part of a configuration.
  lemma OnePart(c: Config, f: Flag)
    requires Canonical(c)
    ensures f in c.on ==> f !in c.numbers && f !in c.texts
    ensures f in c.numbers ==> f !in c.texts
  {
  }

  lemma NumberRestores(c: Config, k: nat, f: Flag)
    requires Canonical(c) && k < SLOTS && Rank(f) == k && f in c.numbers
    ensures SetNumber(Upto(c, k), f, c.numbers[f]) == Upto(c, k + 1)
  {
    OnePart(c, f);
    UptoNext(c.on, c.numbers, k, f);
    UptoNext(c.on, c.texts, k, f);
    if f.SetTtl? { assert UptoMap(c.texts, k) - {AutoTtl} == UptoMap(c.texts, k); }
  }

  lemma WordsRestore(c: Config, k: nat, f: Flag)
    requires Canonical(c) && k < SLOTS && Rank(f) == k && f in c.texts
    ensures SetText(Upto(c, k), f, c.texts[f]) == Upto(c, k + 1)
  {
    OnePart(c, f);
    UptoNext(c.on, c.numbers, k, f);
    UptoNext(c.on, c.texts, k, f);
    if f.AutoTtl? { assert UptoMap(c.numbers, k) - {SetTtl} == UptoMap(c.numbers, k); }
  }

  // A setting that is printed and read back is restored; one that is not stays unset.
  lemma SlotRestores(c: Config, k: nat, f: Flag)
    requires Canonical(c) && k < SLOTS && Rank(f) == k
    ensures match SettingOf(c, f)
            case None => Upto(c, k + 1) == Upto(c, k)
            case Some(x) => Settable(x) && Assign(Upto(c, k), x) == Upto(c, k + 1)
  {
    hide SetNumber;
    hide Unknown;
    hide UptoSet;
    hide Largest;
    OnePart(c, f);
    if f in c.numbers {
      NumberRestores(c, k, f);
    } else if f in c.texts {
      WordsRestore(c, k, f);
    } else {
      UptoNext(c.on, c.numbers, k, f);
      UptoNext(c.on, c.texts, k, f);
    }
  }

  lemma {:induction false} SlotsGive(c: Config, k: nat, end: nat)
    requires Canonical(c) && k <= end <= SLOTS
    ensures ParseFrom(Upto(c, k), PrintFrom(c, k, end)) == Ok(Upto(c, end).(custom := c.custom))
    decreases end - k
  {
    hide ParseFrom;
    if k == end {
      ReadCustom(Upto(c, k), c.custom);
      assert [] + c.custom == c.custom;
    } else {
      RankIs(k, ORDER[k]);
      SlotRestores(c, k, ORDER[k]);
      SlotsGive(c, k + 1, end);
      var rest := PrintFrom(c, k + 1, end);
      match SettingOf(c, ORDER[k]) {
        case None => assert [] + rest == rest;
        case Some(x) => ReadSetting(Upto(c, k), x, rest);
      }
    }
  }

  function WithoutDns(c: Config): Config {
    c.(texts := c.texts - DNS_FLAGS, numbers := c.numbers - DNS_FLAGS)
  }

  // The flags of the DNS redirect come last, and no flag of a configuration is without a slot.
  lemma Ranked(f: Flag)
    ensures Switch(f) || Numeric(f) || Textual(f) ==> Rank(f) < SLOTS
    ensures Rank(f) < DNS_SLOT <==> Rank(f) < SLOTS && f !in DNS_FLAGS
    ensures Switch(f) ==> f !in DNS_FLAGS
  {
  }

  lemma AllSlots(c: Config, dns: bool)
    requires Canonical(c)
    ensures Upto(c, 0) == DEFAULT
    ensures Upto(c, End(dns)).(custom := c.custom) == if dns then c else WithoutDns(c)
  {
    var out := if dns then {} else DNS_FLAGS;
    forall f | f in c.on || f in c.numbers || f in c.texts
      ensures Rank(f) < End(dns) <==> f !in out
    {
      Ranked(f);
    }
    UptoAll(c.on, c.numbers, End(dns), out);
    UptoAll(c.on, c.texts, End(dns), out);
    if !dns { forall f | f in c.on ensures f !in out { Ranked(f); } }
    assert c.on - out == c.on;
  }

  lemma CanonicalRound(c: Config, dns: bool)
    requires Canonical(c)
    ensures Parse(Print(c, dns)) == Ok(if dns then c else WithoutDns(c))
  {
    AllSlots(c, dns);
    SlotsGive(c, 0, End(dns));
  }

  // Printing a configuration that came from arguments and reading it gives it back; without the
  // DNS redirect it lacks exactly the four fields of that.
  lemma RoundTrip(args: seq<string>, dns: bool)
    requires Parse(args).Ok?
    ensures var c := Parse(args).config; Parse(Print(c, dns)) == Ok(if dns then c else WithoutDns(c))
  {
    ParseKeeps(DEFAULT, args);
    CanonicalRound(Parse(args).config, dns);
  }
}
