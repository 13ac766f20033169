/** The listen address on the command line: "PORT", "IP4:PORT" or "[IP6]:PORT". */
module ListenAddress {
  import opened Bytes
  import V4 = IpAddr4
  import V6 = IpAddr6

  /** The byte at i of a string that is terminated by a zero byte. */
  function ByteAt(s: bytes, i: nat): byte { if i < |s| then s[i] else 0 }

  /** ffstr_toint(FFS_INT16): the whole string is a decimal number below 2^16. */
  function ToInt16(s: bytes): (v: Option<nat>)
    ensures v.Some? ==> v.value < 0x1_0000
  {
    if s != [] && V4.AllDecimal(s) && Value(s, 10) < 0x1_0000 then Some(Value(s, 10)) else None
  }

  /** An IPv4 address in its mapped form. */
  function Mapped(a: bytes): (m: bytes)
    requires |a| == 4
    ensures |m| == 16
  {
    V6.Zeros(10) + [0xff, 0xff] + a
  }

  /** Address (None: any) and port. */
  datatype Listen = Listen(ip: Option<bytes>, port: nat)

  /** The address and the number of bytes up to the ':' before the port; zero bytes when there
      is only a port. */
  function Address(s: bytes): (r: Option<(nat, Option<bytes>)>)
    ensures r.Some? && r.value.0 > 0 ==> r.value.1.Some?
    ensures r.Some? && r.value.1.Some? ==> |r.value.1.value| == 16
  {
    if ByteAt(s, 0) == LBRACKET then
      match V6.Parse6(s[1..])
      case None => None
      case Some((n, a)) =>
        if n == 0 || n == |s| - 1 || s[n + 1] != RBRACKET then None else Some((n + 2, Some(a)))
    else
      match V4.Parse4(s)
      case None => Some((0, None))
      case Some((n, a)) => if n == |s| || n == 0 then Some((0, None)) else Some((n, Some(Mapped(a))))
  }

  function Parse(s: bytes): (r: Option<Listen>)
    ensures r.Some? ==> r.value.port < 0x1_0000
  {
    match Address(s)
    case None => None
    case Some((n, ip)) =>
      if n > 0 && ByteAt(s, n) != COLON then None
      else
        match ToInt16(if n > 0 then s[n + 1..] else s)
        case None => None
        case Some(port) => Some(Listen(ip, port))
  }

  /** ffip6_v4mapped_set */
  method MappedSet(ip6: array<byte>, ip4: array<byte>)
    requires ip6.Length == 16 && ip4.Length == 4 && ip6 != ip4
    modifies ip6
    ensures ip6[..] == Mapped(ip4[..])
  {
    forall i | 0 <= i < 10 {
      ip6[i] := 0;
    }
    ip6[10], ip6[11] := 0xff, 0xff;
    forall i | 0 <= i < 4 {
      ip6[12 + i] := ip4[i];
    }
  }

  /** ip_port_split: 0 on success. The address buffer keeps its contents when there is only a
      port. */
  method IpPortSplit(s: bytes, ip6: array<byte>) returns (r: int, port: nat)
    requires ip6.Length == 16
    modifies ip6
    ensures r == if Parse(s).Some? then 0 else -1
    ensures Parse(s).Some? ==>
              port == Parse(s).value.port
              && ip6[..] == if Parse(s).value.ip.Some? then Parse(s).value.ip.value else old(ip6[..])
  {
    hide V6.Parse6, V4.Parse4, ToInt16;
    port := 0;
    var rest := s;
    r := 0;
    if ByteAt(s, 0) == LBRACKET {
      r := V6.Ip6Parse(ip6, s[1..]);
      if r <= 0 || s[r + 1] != RBRACKET { return -1, port; }
      r := r + 2;
    } else {
      var ip4 := new byte[4](_ => 0);
      r := V4.Ip4Parse(ip4, s);
      if r > 0 {
        MappedSet(ip6, ip4);
      } else {
        r := 0;
      }
    }
    if r > 0 {
      if ByteAt(s, r) != COLON { return -1, port; }
      rest := s[r + 1..];
    }
    match ToInt16(rest)
    case None => r := -1;
    case Some(v) => r, port := 0, v;
  }

  // ------------------------------------------------------------ accepted text

  /** A port as text: a decimal number below 2^16, leading zeros allowed. */
  predicate IsPort(p: bytes, port: nat)
  {
    p != [] && V4.AllDecimal(p) && Value(p, 10) == port < 0x1_0000
  }

  /** "[IP6]:PORT" */
  function Text6(t: V6.Ip6Text, p: bytes): bytes { [LBRACKET] + (V6.Text(t) + ([RBRACKET, COLON] + p)) }

  /** "IP4:PORT" */
  function Text4(os: seq<bytes>, p: bytes): bytes
    requires |os| == 4
  {
    V4.Text(os) + ([COLON] + p)
  }

  ghost predicate IsListen6(s: bytes, l: Listen)
  {
    exists t, p :: V6.IsIp6Text(t) && IsPort(p, l.port) && s == Text6(t, p) && l.ip == Some(V6.Address(t))
  }

  ghost predicate IsListen4(s: bytes, l: Listen)
  {
    exists os: seq<bytes>, p ::
      |os| == 4 && V4.AreOctets(os) && IsPort(p, l.port) && s == Text4(os, p) && l.ip == Some(Mapped(V4.Octets(os)))
  }

  /** The three forms of a listen address. */
  ghost predicate IsListen(s: bytes, l: Listen)
  {
    IsListen6(s, l) || IsListen4(s, l) || (IsPort(s, l.port) && l.ip == None)
  }

  lemma Address6(t: V6.Ip6Text, p: bytes)
    requires V6.IsIp6Text(t)
    ensures var s, n := Text6(t, p), |V6.Text(t)| + 2;
            n < |s| && Address(s) == Some((n, Some(V6.Address(t)))) && s[n..] == [COLON] + p
  {
    hide V6.Parse6, V6.Text, V6.Address, V6.IsIp6Text;
    var text, rest := V6.Text(t), [RBRACKET, COLON] + p;
    V6.ParseText(t, rest);
    TextSome(t);
    var s := Text6(t, p);
    assert s[1..] == text + rest;
    assert s[|text| + 1] == (text + rest)[|text|] == rest[0];
    assert s[|text| + 2..] == rest[1..];
  }

  lemma TextSome(t: V6.Ip6Text)
    requires V6.IsIp6Text(t)
    ensures V6.Text(t) != []
  {
    if t.Plain? {
      assert V6.IsGroup(t.left[7]);
    }
  }

  lemma Address4(os: seq<bytes>, p: bytes)
    requires |os| == 4 && V4.AreOctets(os)
    ensures var s, n := Text4(os, p), |V4.Text(os)|;
            0 < n < |s| && Address(s) == Some((n, Some(Mapped(V4.Octets(os))))) && s[n..] == [COLON] + p
  {
    hide V4.Parse4, V4.Text, V4.Octets, V4.AreOctets;
    var s, text := Text4(os, p), V4.Text(os);
    assert s[..|text|] == text && s[|text|..] == [COLON] + p && s[|text|] == COLON;
    V4.ParseText(s, os);
    StartsWithDigit(os);
    assert s[0] == text[0];
  }

  lemma StartsWithDigit(os: seq<bytes>)
    requires |os| == 4 && V4.AreOctets(os)
    ensures V4.Text(os) != [] && IsDigit(V4.Text(os)[0])
  {
    assert V4.IsOctet(os[0]) && V4.IsOctet(os[3]);
    assert os[..3][..2] == os[..2] && os[..2][..1] == os[..1];
    assert V4.Dots(os[..1]) == os[0] + [V4.DOT];
    assert V4.Dots(os[..1])[0] == os[0][0] && V4.Dots(os[..2])[0] == os[0][0] && V4.Dots(os[..3])[0] == os[0][0];
    assert V4.Text(os)[0] == os[0][0];
  }

  lemma TextHasDot(os: seq<bytes>)
    requires |os| == 4
    ensures V4.DOT in V4.Text(os)
  {
    var d := V4.Dots(os[..3]);
    assert V4.Text(os)[|d| - 1] == d[|d| - 1] == V4.DOT;
  }

  lemma DigitsAreNotIp4(s: bytes)
    requires V4.AllDecimal(s)
    ensures V4.Parse4(s).None?
  {
    if V4.Parse4(s).Some? {
      var os := V4.ParsedText(s);
      TextHasDot(os);
    }
  }

  lemma ParsePort(s: bytes, n: nat, ip: Option<bytes>, p: bytes, port: nat)
    requires 0 < n < |s| && Address(s) == Some((n, ip)) && s[n..] == [COLON] + p && IsPort(p, port)
    ensures Parse(s) == Some(Listen(ip, port))
  {
    hide Address;
    assert s[n] == s[n..][0] && s[n + 1..] == s[n..][1..] == p;
  }

  lemma ParseAlone(s: bytes, port: nat)
    requires IsPort(s, port)
    ensures Parse(s) == Some(Listen(None, port))
  {
    DigitsAreNotIp4(s);
    assert IsDigit(s[0]);
  }

  /** What follows the address is ':' and a port. */
  lemma PortAfter(s: bytes, l: Listen, n: nat) returns (p: bytes)
    requires Parse(s) == Some(l) && Address(s) == Some((n, l.ip)) && 0 < n < |s|
    ensures IsPort(p, l.port) && s[n..] == [COLON] + p
  {
    hide Address;
    p := s[n + 1..];
    assert s[n] == COLON && s[n..] == [s[n]] + p;
  }

  lemma Shape6(s: bytes, n: nat, text: bytes, p: bytes)
    requires n + 2 <= |s| && s[0] == LBRACKET && s[n + 1] == RBRACKET && n == |text|
    requires s[1..][..n] == text && s[n + 2..] == [COLON] + p
    ensures s == [LBRACKET] + (text + ([RBRACKET, COLON] + p))
  {
    assert [RBRACKET, COLON] + p == [s[n + 1]] + s[n + 2..] == s[1..][n..];
  }

  lemma Parsed6(s: bytes, l: Listen)
    requires Parse(s) == Some(l) && ByteAt(s, 0) == LBRACKET
    ensures IsListen6(s, l)
  {
    hide V6.Parse6, V6.Text, V6.Address, V6.IsIp6Text, IsPort;
    var (n, a) := V6.Parse6(s[1..]).value;
    assert Address(s) == Some((n + 2, Some(a)));
    var p := PortAfter(s, l, n + 2);
    var t := V6.ParsedIsText(s[1..]);
    Shape6(s, n, V6.Text(t), p);
    assert s == Text6(t, p);
  }

  lemma Parsed4(s: bytes, l: Listen)
    requires Parse(s) == Some(l) && ByteAt(s, 0) != LBRACKET
    ensures IsListen4(s, l) || (IsPort(s, l.port) && l.ip == None)
  {
    hide V4.Parse4, V4.Text, V4.Octets, V4.AreOctets, V4.AllDecimal, Value, V6.Parse6;
    if l.ip.Some? {
      var (n, a) := V4.Parse4(s).value;
      var p := PortAfter(s, l, n);
      var os := V4.ParsedText(s);
      assert s == s[..n] + s[n..];
      assert s == Text4(os, p);
    }
  }

  /** Exactly the three forms are accepted, each with the address and the port it names. */
  lemma ParseMeaning(s: bytes, l: Listen)
    ensures Parse(s) == Some(l) <==> IsListen(s, l)
  {
    hide Parse, Address, IsPort, V6.IsIp6Text, V6.Address, V6.Text, V4.AreOctets, V4.Octets, V4.Text, Text6, Text4;
    if Parse(s) == Some(l) {
      if ByteAt(s, 0) == LBRACKET { Parsed6(s, l); } else { Parsed4(s, l); }
    }
    if t, p :| V6.IsIp6Text(t) && IsPort(p, l.port) && s == Text6(t, p) && l.ip == Some(V6.Address(t)) {
      Address6(t, p);
      ParsePort(s, |V6.Text(t)| + 2, l.ip, p, l.port);
    }
    if os: seq<bytes>, p :|
       |os| == 4 && V4.AreOctets(os) && IsPort(p, l.port) && s == Text4(os, p) && l.ip == Some(Mapped(V4.Octets(os))) {
      Address4(os, p);
      ParsePort(s, |V4.Text(os)|, l.ip, p, l.port);
    }
    if IsPort(s, l.port) && l.ip == None {
      ParseAlone(s, l.port);
    }
  }

  // ------------------------------------------------------------- round trips

  lemma PortText(port: nat)
    requires port < 0x1_0000
    ensures IsPort(Digits(port, 10), port)
  {
    var o := Digits(port, 10);
    DigitsValue(port, 10);
    forall i | 0 <= i < |o| ensures IsDigit(o[i]) {
      assert 0 <= HexDigit(o[i]) < 10;
    }
  }

  /** "[ADDR]:PORT" gives the address and the port back, for every address and port. */
  lemma Listen6RoundTrip(a: bytes, from: nat, len: nat, port: nat)
    requires |a| == 16 && V6.IsZeroRun(a, from, len) && port < 0x1_0000
    ensures Parse(Text6(V6.FormCut(a, from, len), Digits(port, 10))) == Some(Listen(Some(a), port))
  {
    hide Parse, IsPort, V6.Address, V6.Text, V6.FormCut, V6.IsZeroRun, Digits;
    V6.FormCutAddress(a, from, len);
    PortText(port);
    ParseMeaning(Text6(V6.FormCut(a, from, len), Digits(port, 10)), Listen(Some(a), port));
  }

  /** "a.b.c.d:PORT" gives the address, in mapped form, and the port back. */
  lemma Listen4RoundTrip(a: bytes, port: nat)
    requires |a| == 4 && port < 0x1_0000
    ensures Parse(Text4(V4.OctetTexts(a), Digits(port, 10))) == Some(Listen(Some(Mapped(a)), port))
  {
    hide Parse, IsPort, V4.Text, Digits;
    PortText(port);
    ParseMeaning(Text4(V4.OctetTexts(a), Digits(port, 10)), Listen(Some(Mapped(a)), port));
  }

  /** A port alone is accepted and leaves the address unspecified. */
  lemma ListenPortRoundTrip(port: nat)
    requires port < 0x1_0000
    ensures Parse(Digits(port, 10)) == Some(Listen(None, port))
  {
    hide Parse, IsPort, Digits;
    PortText(port);
    ParseMeaning(Digits(port, 10), Listen(None, port));
  }
}
