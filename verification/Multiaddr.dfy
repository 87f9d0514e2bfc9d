/**
 The text form of a multiaddress: parsing, printing, and the lookups and edits by protocol name. Ports
 are modelled down to their digits. The text of IP addresses belongs to a library: `Ips` is what it
 prints and parses, and `Ips.Valid` what is asked of it.
 */
module Multiaddr {
  import opened Wrappers

  type Port = p: nat | p < 0x1_0000

  type Ip4Addr = a: nat | a < 0x1_0000_0000

  type Ip6Addr = a: nat | a < 0x1_0000_0000_0000_0000_0000_0000_0000_0000

  datatype Protocol = Ip4(ip4: Ip4Addr) | Ip6(ip6: Ip6Addr) | Tcp(port: Port) | Udp(port: Port) | P2P(id: string)

  datatype Ips = Ips(
    print4: Ip4Addr -> string, parse4: string -> Option<Ip4Addr>,
    print6: Ip6Addr -> string, parse6: string -> Option<Ip6Addr>)
  {
    ghost predicate Valid() {
      && (forall a: Ip4Addr :: parse4(print4(a)) == Some(a) && NoSlash(print4(a)) && print4(a) != "")
      && (forall a: Ip6Addr :: parse6(print6(a)) == Some(a) && NoSlash(print6(a)) && print6(a) != "")
    }
  }

  // A missing or malformed value of a strict protocol panics; the rest is an ordinary error.
  datatype Error = Panicked | MissingValue | InvalidPort | InvalidValue | UnknownProtocol(name: string)

  predicate NoSlash(s: string) { forall i :: 0 <= i < |s| ==> s[i] != '/' }

  // ---------- ports ----------

  function Digit(d: nat): char
    requires d < 10
  {
    ('0' as int + d) as char
  }

  function PrintNat(n: nat): (s: string)
    ensures |s| > 0 && forall i :: 0 <= i < |s| ==> '0' <= s[i] <= '9'
    ensures |s| == 1 || s[0] != '0'
    ensures n > 0 ==> s[0] != '0'
  {
    if n < 10 then [Digit(n)] else PrintNat(n / 10) + [Digit(n % 10)]
  }

  function ParseDigits(s: string): Option<nat> {
    if s == "" then Some(0)
    else
      var c := s[|s| - 1];
      match ParseDigits(s[..|s| - 1])
      case None => None
      case Some(v) => if '0' <= c <= '9' then Some(10 * v + (c as int - '0' as int)) else None
  }

  // A 16-bit decimal; a leading plus sign is accepted.
  function ParsePort(s: string): Option<Port> {
    var digits := if s != "" && s[0] == '+' then s[1..] else s;
    if digits == "" then None
    else
      match ParseDigits(digits)
      case None => None
      case Some(v) => if v < 0x1_0000 then Some(v) else None
  }

  lemma {:induction false} DigitsRoundTrip(n: nat)
    ensures ParseDigits(PrintNat(n)) == Some(n)
  {
    if n < 10 {
      assert [Digit(n)][..0] == "";
    } else {
      DigitsRoundTrip(n / 10);
      assert (PrintNat(n / 10) + [Digit(n % 10)])[..|PrintNat(n / 10)|] == PrintNat(n / 10);
    }
  }

  lemma {:induction false} DigitsAreParsed(s: string)
    ensures ParseDigits(s).Some? <==> forall i :: 0 <= i < |s| ==> '0' <= s[i] <= '9'
  {
    if s != "" {
      DigitsAreParsed(s[..|s| - 1]);
      assert forall i :: 0 <= i < |s| - 1 ==> s[..|s| - 1][i] == s[i];
    }
  }

  // Leading zeros do not count.
  lemma {:induction false} LeadingZero(s: string)
    ensures ParseDigits("0" + s) == ParseDigits(s)
  {
    if s == "" {
      assert ("0" + s)[..0] == "";
    } else {
      LeadingZero(s[..|s| - 1]);
      assert ("0" + s)[..|s|] == "0" + s[..|s| - 1];
    }
  }

  // A port is read from decimal digits, at least one and with or without a plus sign, that stay below 2^16.
  lemma PortIsReadIff(s: string)
    ensures var digits := if s != "" && s[0] == '+' then s[1..] else s;
      ParsePort(s).Some? <==>
        && digits != "" && (forall i :: 0 <= i < |digits| ==> '0' <= digits[i] <= '9')
        && exists v :: 0 <= v < 0x1_0000 && ParseDigits(digits) == Some(v)
  {
    DigitsAreParsed(if s != "" && s[0] == '+' then s[1..] else s);
  }

  lemma PortRoundTrip(port: Port)
    ensures ParsePort(PrintNat(port)) == Some(port)
    ensures NoSlash(PrintNat(port))
  {
    DigitsRoundTrip(port);
  }

  function Ip4Of(n: Option<nat>): Option<Ip4Addr> {
    if n.Some? && n.value < 0x1_0000_0000 then Some(n.value) else None
  }

  function Ip6Of(n: Option<nat>): Option<Ip6Addr> {
    if n.Some? && n.value < 0x1_0000_0000_0000_0000_0000_0000_0000_0000 then Some(n.value) else None
  }

  // Address texts as `Ips.Valid` asks for exist: plain decimal numbers would do.
  lemma DecimalIpsAreValid()
    ensures exists ips: Ips :: ips.Valid()
  {
    var ips := Ips(
      (a: Ip4Addr) => PrintNat(a), (s: string) => Ip4Of(ParseDigits(s)),
      (a: Ip6Addr) => PrintNat(a), (s: string) => Ip6Of(ParseDigits(s)));
    forall n: nat ensures ParseDigits(PrintNat(n)) == Some(n) && NoSlash(PrintNat(n)) { DigitsRoundTrip(n); }
    assert ips.Valid();
  }

  // ---------- printing ----------

  function Name(p: Protocol): string {
    match p
    case Ip4(_) => "ip4"
    case Ip6(_) => "ip6"
    case Tcp(_) => "tcp"
    case Udp(_) => "udp"
    case P2P(_) => "p2p"
  }

  function Value(ips: Ips, p: Protocol): string {
    match p
    case Ip4(a) => ips.print4(a)
    case Ip6(a) => ips.print6(a)
    case Tcp(port) => PrintNat(port)
    case Udp(port) => PrintNat(port)
    case P2P(id) => id
  }

  function PrintComponent(ips: Ips, p: Protocol): string { "/" + Name(p) + "/" + Value(ips, p) }

  function Print(ips: Ips, components: seq<Protocol>): string {
    if components == [] then "" else PrintComponent(ips, components[0]) + Print(ips, components[1..])
  }

  // ---------- parsing ----------

  function TrimStart(s: string): string { if s != "" && s[0] == '/' then TrimStart(s[1..]) else s }

  function TrimEnd(s: string): string {
    if s != "" && s[|s| - 1] == '/' then TrimEnd(s[..|s| - 1]) else s
  }

  // The pieces between slashes; one piece if there is none.
  function Split(s: string): (parts: seq<string>)
    ensures |parts| > 0
  {
    if s == "" then [""]
    else
      var rest := Split(s[1..]);
      if s[0] == '/' then [""] + rest else [[s[0]] + rest[0]] + rest[1..]
  }

  function ParseComponent(ips: Ips, name: string, value: Option<string>): Result<Protocol, Error> {
    if name == "ip4" then
      if value.None? || ips.parse4(value.value).None? then Err(Panicked) else Ok(Ip4(ips.parse4(value.value).value))
    else if name == "ip6" then
      if value.None? || ips.parse6(value.value).None? then Err(Panicked) else Ok(Ip6(ips.parse6(value.value).value))
    else if name == "tcp" then
      if value.None? || ParsePort(value.value).None? then Err(Panicked) else Ok(Tcp(ParsePort(value.value).value))
    else if name == "udp" then
      if value.None? then Err(MissingValue)
      else if ParsePort(value.value).None? then Err(InvalidPort) else Ok(Udp(ParsePort(value.value).value))
    else if name == "p2p" then
      if value.None? then Err(MissingValue) else Ok(P2P(value.value))
    else Err(UnknownProtocol(name))
  }

  function ParseParts(ips: Ips, parts: seq<string>, i: nat): Result<seq<Protocol>, Error>
    decreases |parts| - i
  {
    if i >= |parts| then Ok([])
    else
      match ParseComponent(ips, parts[i], if i + 1 < |parts| then Some(parts[i + 1]) else None)
      case Err(e) => Err(e)
      case Ok(c) =>
        match ParseParts(ips, parts, i + 2)
        case Err(e) => Err(e)
        case Ok(rest) => Ok([c] + rest)
  }

  function Parse(ips: Ips, addr: string): Result<seq<Protocol>, Error> {
    ParseParts(ips, Split(TrimEnd(TrimStart(addr))), 0)
  }

  ghost predicate IsFirst(components: seq<Protocol>, i: int, proto: string) {
    && 0 <= i < |components| && Name(components[i]) == proto
    && forall j :: 0 <= j < i ==> Name(components[j]) != proto
  }

  class Multiaddr {
    const ips: Ips
    var components: seq<Protocol>

    constructor (ips: Ips, components: seq<Protocol>)
      ensures this.ips == ips && this.components == components
    {
      this.ips, this.components := ips, components;
    }

    static method ParseAddress(ips: Ips, addr: string) returns (r: Result<seq<Protocol>, Error>)
      ensures r == Parse(ips, addr)
    {
      var parts := Split(TrimEnd(TrimStart(addr)));
      var components: seq<Protocol> := [];
      var i := 0;
      ghost var all := ParseParts(ips, parts, 0);
      assert all.Ok? ==> components + all.value == all.value;
      while i < |parts|
        invariant all == Prepended(components, ParseParts(ips, parts, i))
        decreases |parts| - i
      {
        var c := ParseComponent(ips, parts[i], if i + 1 < |parts| then Some(parts[i + 1]) else None);
        if c.Err? {
          return Err(c.error);
        }
        ghost var rest := ParseParts(ips, parts, i + 2);
        if rest.Ok? { assert components + ([c.value] + rest.value) == components + [c.value] + rest.value; }
        components := components + [c.value];
        i := i + 2;
      }
      assert components + [] == components;
      return Ok(components);
    }

    // The value of the first component of a protocol.
    method ValueForProtocol(proto: string) returns (value: Option<string>)
      ensures value.Some? <==> exists i :: 0 <= i < |components| && Name(components[i]) == proto
      ensures value.Some? ==>
        exists i :: IsFirst(components, i, proto) && value.value == Value(ips, components[i])
    {
      for i := 0 to |components|
        invariant forall j :: 0 <= j < i ==> Name(components[j]) != proto
      {
        if Name(components[i]) == proto {
          assert IsFirst(components, i, proto);
          return Some(Value(ips, components[i]));
        }
      }
      return None;
    }

    // Replaces the value of the first component of the protocol; of every one, for "ip4".
    method ReplaceValueForProtocol(proto: string, value: string) returns (r: Result<(), Error>)
      modifies this
      ensures |components| == |old(components)|
      ensures r.Err? <==>
        (exists i :: 0 <= i < |old(components)| && Name(old(components)[i]) == proto)
        && ParseComponent(ips, proto, Some(value)).Err?
      ensures r.Err? ==> components == old(components)
      ensures r.Ok? ==> forall i :: 0 <= i < |components| ==>
        if Name(old(components)[i]) == proto && (proto == "ip4" || IsFirst(old(components), i, proto))
        then Ok(components[i]) == ParseComponent(ips, proto, Some(value))
        else components[i] == old(components)[i]
    {
      for i := 0 to |components|
        invariant |components| == |old(components)|
        invariant components[i..] == old(components)[i..]
        invariant proto != "ip4" ==> forall j :: 0 <= j < i ==> Name(old(components)[j]) != proto
        invariant forall j :: 0 <= j < i ==>
          if Name(old(components)[j]) == proto then Ok(components[j]) == ParseComponent(ips, proto, Some(value))
          else components[j] == old(components)[j]
      {
        assert components[i] == components[i..][0] == old(components)[i..][0];
        if Name(components[i]) == proto {
          var parsed := ParseComponent(ips, proto, Some(value));
          if parsed.Err? {
            return Err(InvalidValue);
          }
          components := components[i := parsed.value];
          if proto != "ip4" {
            assert IsFirst(old(components), i, proto);
            return Ok(());
          }
        }
      }
      return Ok(());
    }

    method PushProto(p: Protocol)
      modifies this
      ensures components == old(components) + [p]
    {
      components := components + [p];
    }

    method Pop() returns (p: Option<Protocol>)
      modifies this
      ensures old(components) == [] ==> p == None && components == []
      ensures old(components) != [] ==> p.Some? && components + [p.value] == old(components)
    {
      if components == [] {
        return None;
      }
      p := Some(components[|components| - 1]);
      components := components[..|components| - 1];
    }
  }

  function Prepended(v: seq<Protocol>, r: Result<seq<Protocol>, Error>): Result<seq<Protocol>, Error> {
    match r
    case Err(e) => Err(e)
    case Ok(rest) => Ok(v + rest)
  }

  // ---------- printing and parsing ----------

  // The pieces a printed list falls into.
  function Parts(ips: Ips, components: seq<Protocol>): seq<string> {
    if components == [] then [] else [Name(components[0]), Value(ips, components[0])] + Parts(ips, components[1..])
  }

  ghost predicate ValuesNoSlash(components: seq<Protocol>) {
    forall c :: c in components && c.P2P? ==> NoSlash(c.id)
  }

  lemma {:induction false} SplitPiece(a: string, s: string)
    requires NoSlash(a)
    ensures Split(a + "/" + s) == [a] + Split(s)
    ensures Split(a) == [a]
  {
    if a == "" {
      assert a + "/" + s == "/" + s && ("/" + s)[1..] == s;
    } else {
      assert (a + "/" + s)[1..] == a[1..] + "/" + s;
      SplitPiece(a[1..], s);
      assert [a[0]] + a[1..] == a;
    }
  }

  lemma ValueNoSlash(ips: Ips, p: Protocol)
    requires ips.Valid() && (p.P2P? ==> NoSlash(p.id))
    ensures NoSlash(Value(ips, p)) && NoSlash(Name(p)) && Name(p) != ""
  {
    match p
    case Tcp(port) => PortRoundTrip(port);
    case Udp(port) => PortRoundTrip(port);
    case _ =>
  }

  lemma {:induction false} SplitPrinted(ips: Ips, components: seq<Protocol>)
    requires ips.Valid() && components != [] && ValuesNoSlash(components)
    ensures Print(ips, components)[0] == '/' && Split(Print(ips, components)[1..]) == Parts(ips, components)
  {
    var c, rest := components[0], components[1..];
    ValueNoSlash(ips, c);
    PrintStep(ips, components);
    var name, v := Name(c), Value(ips, c);
    hide Print, Split, Parts, Name, Value;
    hide NoSlash;
    if rest == [] {
      LastPieces(name, v, Print(ips, components));
    } else {
      SplitPrinted(ips, rest);
      FirstPieces(name, v, Print(ips, rest), Print(ips, components));
    }
  }

  lemma LastPieces(a: string, b: string, s: string)
    requires NoSlash(a) && NoSlash(b) && s == "/" + a + "/" + b + ""
    ensures s[0] == '/' && Split(s[1..]) == [a, b]
  {
    hide Split;
    assert s[1..] == a + "/" + b;
    SplitPiece(a, b);
    SplitPiece(b, "");
  }

  lemma FirstPieces(a: string, b: string, rest: string, s: string)
    requires NoSlash(a) && NoSlash(b) && rest != "" && rest[0] == '/' && s == "/" + a + "/" + b + rest
    ensures s[0] == '/' && Split(s[1..]) == [a, b] + Split(rest[1..])
  {
    hide Split;
    var inner := b + "/" + rest[1..];
    assert rest == "/" + rest[1..];
    assert s[1..] == a + "/" + inner;
    SplitPiece(a, inner);
    SplitPiece(b, rest[1..]);
    var parts := Split(rest[1..]);
    assert [a] + ([b] + parts) == [a, b] + parts;
  }

  lemma PrintStep(ips: Ips, components: seq<Protocol>)
    requires components != []
    ensures var c, rest := components[0], components[1..];
      && Print(ips, components) == "/" + Name(c) + "/" + Value(ips, c) + Print(ips, rest)
      && Parts(ips, components) == [Name(c), Value(ips, c)] + Parts(ips, rest)
      && (rest == [] ==> Print(ips, rest) == "" && Parts(ips, rest) == [])
  {}

  lemma ComponentParses(ips: Ips, c: Protocol)
    requires ips.Valid()
    ensures ParseComponent(ips, Name(c), Some(Value(ips, c))) == Ok(c)
  {
    hide ParsePort, PrintNat, NoSlash;
    if c.Tcp? || c.Udp? { PortRoundTrip(c.port); }
  }

  lemma {:induction false} PartsParse(ips: Ips, components: seq<Protocol>, before: seq<string>)
    requires ips.Valid()
    ensures ParseParts(ips, before + Parts(ips, components), |before|) == Ok(components)
    decreases |components|
  {
    if components != [] {
      var c := components[0];
      var parts := before + Parts(ips, components);
      var before' := before + [Name(c), Value(ips, c)];
      assert parts == before' + Parts(ips, components[1..]);
      assert parts[|before|] == Name(c) && parts[|before| + 1] == Value(ips, c);
      ComponentParses(ips, c);
      hide ParseComponent, Name, Value;
      PartsParse(ips, components[1..], before');
      assert components == [c] + components[1..];
    }
  }

  lemma {:induction false} LastOfPrint(ips: Ips, components: seq<Protocol>)
    requires components != []
    ensures var v := Value(ips, components[|components| - 1]);
      |Print(ips, components)| >= |v| + 1
      && Print(ips, components)[|Print(ips, components)| - |v|..] == v
      && (v == "" ==> Print(ips, components)[|Print(ips, components)| - 1] == '/')
  {
    if |components| > 1 { LastOfPrint(ips, components[1..]); }
  }

  // A list whose values hold no slash and whose last value is not empty is printed and parsed back.
  lemma PrintedIsParsed(ips: Ips, components: seq<Protocol>)
    requires ips.Valid()
    requires components != [] && ValuesNoSlash(components) && components[|components| - 1] != P2P("")
    ensures Parse(ips, Print(ips, components)) == Ok(components)
  {
    var s, last := Print(ips, components), components[|components| - 1];
    SplitPrinted(ips, components);
    LastOfPrint(ips, components);
    ValueNoSlash(ips, components[0]);
    ValueNoSlash(ips, last);
    assert s[1] == Name(components[0])[0];
    assert TrimStart(s) == TrimStart(s[1..]) == s[1..];
    var v := Value(ips, last);
    assert v != "" && s[|s| - 1] == v[|v| - 1];
    assert TrimEnd(s[1..]) == s[1..];
    PartsParse(ips, components, []);
    assert [] + Parts(ips, components) == Parts(ips, components);
  }

  lemma {:induction false} SplitNoSlash(s: string)
    ensures forall part :: part in Split(s) ==> NoSlash(part)
    ensures s != "" && s[|s| - 1] != '/' ==> Split(s)[|Split(s)| - 1] != ""
  {
    if s != "" {
      SplitNoSlash(s[1..]);
      if |s| > 1 { assert s[1..][|s| - 2] == s[|s| - 1]; }
      var rest := Split(s[1..]);
      assert rest[0] in rest && forall part :: part in rest[1..] ==> part in rest;
    }
  }

  lemma {:induction false} TrimEndEnds(s: string)
    ensures TrimEnd(s) != "" ==> TrimEnd(s)[|TrimEnd(s)| - 1] != '/'
  {
    if s != "" && s[|s| - 1] == '/' { TrimEndEnds(s[..|s| - 1]); }
  }

  lemma {:induction false} ParsedValues(ips: Ips, parts: seq<string>, i: nat)
    requires ParseParts(ips, parts, i).Ok? && i <= |parts|
    requires forall part :: part in parts ==> NoSlash(part)
    ensures var cs := ParseParts(ips, parts, i).value;
      && ValuesNoSlash(cs) && (cs == [] <==> i == |parts|)
      && (cs != [] && cs[|cs| - 1].P2P? ==> cs[|cs| - 1].id == parts[|parts| - 1])
    decreases |parts| - i
  {
    if i < |parts| {
      if i + 2 <= |parts| { ParsedValues(ips, parts, i + 2); }
    }
  }

  // Printing and parsing give a list back exactly when it is not empty, no peer id holds a slash, and
  // the last component is not an empty peer id.
  lemma PrintParseIff(ips: Ips, components: seq<Protocol>)
    requires ips.Valid()
    ensures Parse(ips, Print(ips, components)) == Ok(components) <==>
      components != [] && ValuesNoSlash(components) && components[|components| - 1] != P2P("")
  {
    if components != [] && ValuesNoSlash(components) && components[|components| - 1] != P2P("") {
      PrintedIsParsed(ips, components);
    } else if Parse(ips, Print(ips, components)) == Ok(components) {
      var s := TrimEnd(TrimStart(Print(ips, components)));
      SplitNoSlash(s);
      TrimEndEnds(TrimStart(Print(ips, components)));
      ParsedValues(ips, Split(s), 0);
      assert false;
    }
  }

  // The printed form of each protocol.
  lemma PrintedForms(ips: Ips, a4: Ip4Addr, a6: Ip6Addr, port: Port, id: string)
    ensures PrintComponent(ips, Ip4(a4)) == "/ip4/" + ips.print4(a4)
    ensures PrintComponent(ips, Ip6(a6)) == "/ip6/" + ips.print6(a6)
    ensures PrintComponent(ips, Tcp(port)) == "/tcp/" + PrintNat(port)
    ensures PrintComponent(ips, Udp(port)) == "/udp/" + PrintNat(port)
    ensures PrintComponent(ips, P2P(id)) == "/p2p/" + id
  {}

  // Slashes before and after an address do not matter.
  lemma SlashesAroundAreIgnored(ips: Ips, addr: string)
    ensures Parse(ips, "/" + addr) == Parse(ips, addr) == Parse(ips, addr + "/")
  {
    assert ("/" + addr)[1..] == addr;
    TrimBoth(addr);
  }

  lemma {:induction false} TrimBoth(s: string)
    ensures TrimEnd(TrimStart(s + "/")) == TrimEnd(TrimStart(s))
  {
    if s == "" {
      assert ("" + "/")[1..] == "";
    } else if s[0] == '/' {
      assert (s + "/")[1..] == s[1..] + "/";
      TrimBoth(s[1..]);
    } else {
      assert (s + "/")[..|s|] == s;
    }
  }

  function Joined(parts: seq<string>): string
    requires parts != []
  {
    if |parts| == 1 then parts[0] else parts[0] + "/" + Joined(parts[1..])
  }

  // The pieces hold no slash, and joined with slashes they are the text.
  lemma {:induction false} SplitJoins(s: string)
    ensures Joined(Split(s)) == s
  {
    if s != "" {
      SplitJoins(s[1..]);
      var rest := Split(s[1..]);
      if s[0] == '/' {
        assert Split(s)[1..] == rest;
        assert s == "/" + s[1..];
      } else {
        assert Split(s)[1..] == rest[1..];
        assert s == [s[0]] + s[1..];
      }
    }
  }

  // How one name with its value can fail.
  lemma ComponentFails(ips: Ips, name: string, value: Option<string>)
    ensures var r := ParseComponent(ips, name, value);
      && (r == Err(UnknownProtocol(name)) <==> name !in {"ip4", "ip6", "tcp", "udp", "p2p"})
      && (r == Err(MissingValue) <==> name in {"udp", "p2p"} && value == None)
      && (r == Err(InvalidPort) <==> name == "udp" && value.Some? && ParsePort(value.value) == None)
      && (r == Err(Panicked) <==>
            || (name in {"ip4", "ip6", "tcp"} && value == None)
            || (name == "ip4" && value.Some? && ips.parse4(value.value) == None)
            || (name == "ip6" && value.Some? && ips.parse6(value.value) == None)
            || (name == "tcp" && value.Some? && ParsePort(value.value) == None))
      && (r.Ok? ==> value.Some? && Name(r.value) == name)
  {
    hide ParsePort;
  }
}
