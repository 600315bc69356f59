/** The command-line values the IP tunnel server takes apart before it starts
    (server-tun/src/main.cpp): an address in CIDR notation and the
    "sc.vc.map" ids of its uplink and downlink channels. Each parser throws
    std::invalid_argument on a malformed value, and std::stoi throws on a
    number it cannot read; both become a Failure here. */
module TunConfig {
  import opened Wrappers
  import opened Ints
  import opened Strings

  /** Why a command-line value was refused. */
  datatype ConfigError =
    | NoSlash              // "there is no slash"
    | EmptyAddress         // "addr size is zero"
    | EmptyMask            // "zero sized port part"
    | NoDots               // "No dots found"
    | OnlyOneDot           // "only one dot found"
    | BadNumber(e: StoiError) // what std::stoi threw

  /** std::stoi in base 10, its exceptions as a ConfigError. */
  function Number(s: string): (r: Result<int32, ConfigError>)
    ensures r.Failure? ==> r.error.BadNumber?
  {
    match Stoi(s, 10)
    case Success(v) => Success(v)
    case Failure(e) => Failure(BadNumber(e))
  }

  /** split_cidr_addr: the text before the first slash, which must exist and
      must not be empty. */
  function SplitCidrAddr(input: string): (r: Result<string, ConfigError>)
    ensures '/' !in input ==> r == Failure(NoSlash)
    ensures r.Success? <==> '/' in input && input[0] != '/'
    ensures r.Success? ==>
      && r.value != [] && '/' !in r.value
      && |r.value| < |input| && input[..|r.value|] == r.value && input[|r.value|] == '/'
  {
    match FirstIndex(input, '/')
    case None => Failure(NoSlash)
    case Some(k) => if k == 0 then Failure(EmptyAddress) else Success(input[..k])
  }

  /** split_cidr_mask: the number after the first slash, which must exist
      and be followed by something. */
  function SplitCidrMask(input: string): (r: Result<int32, ConfigError>)
    ensures '/' !in input ==> r == Failure(NoSlash)
  {
    match FirstIndex(input, '/')
    case None => Failure(NoSlash)
    case Some(k) =>
      var maskPart := input[k + 1..];
      if |maskPart| == 0 then Failure(EmptyMask) else Number(maskPart)
  }

  /** Every text with a slash is an address part without slashes, the slash,
      and a tail: the address part is the address, and the tail is the mask. */
  lemma CidrParts(addr: string, tail: string)
    requires '/' !in addr
    ensures SplitCidrAddr(addr + "/" + tail) ==
      if addr == [] then Failure(EmptyAddress) else Success(addr)
    ensures SplitCidrMask(addr + "/" + tail) ==
      if tail == [] then Failure(EmptyMask) else Number(tail)
  {
    var input := addr + "/" + tail;
    FirstIndexAfter(addr, "/" + tail, '/');
    assert input == addr + ("/" + tail);
    assert input[..|addr|] == addr;
    assert input[|addr| + 1..] == tail;
  }

  /** An address and a mask written as "addr/mask" are read back. */
  lemma CidrRoundTrip(addr: string, mask: int32)
    requires addr != [] && '/' !in addr
    ensures SplitCidrAddr(addr + "/" + IntToDecimal(mask)) == Success(addr)
    ensures SplitCidrMask(addr + "/" + IntToDecimal(mask)) == Success(mask)
  {
    CidrParts(addr, IntToDecimal(mask));
    StoiOfDecimal(mask, 10);
  }

  /** A string ending in c has its last c at its end. */
  lemma LastIndexSnoc(z: string, c: char)
    ensures LastIndex(z + [c], c) == Some(|z|)
  {
    assert (z + [c])[|z|] == c;
  }

  /** The first occurrence of a character is never after its last. */
  lemma FirstNotAfterLast(s: string, c: char)
    ensures FirstIndex(s, c).Some? <==> LastIndex(s, c).Some?
    ensures FirstIndex(s, c).Some? ==> FirstIndex(s, c).value <= LastIndex(s, c).value
  {
  }

  /** The three texts split_channel_id reads numbers from: before the first
      dot, from after the first dot up to and including the last dot, and
      after the last dot. */
  function ChannelIdTexts(input: string): (r: Result<(string, string, string), ConfigError>)
    ensures '.' !in input <==> r == Failure(NoDots)
    ensures r.Failure? ==> r.error == NoDots || r.error == OnlyOneDot
  {
    FirstNotAfterLast(input, '.');
    match FirstIndex(input, '.')
    case None => Failure(NoDots)
    case Some(first) =>
      var last := LastIndex(input, '.').value;
      if first == last then Failure(OnlyOneDot)
      else Success((input[..first], input[first + 1..last + 1], input[last + 1..]))
  }

  /** split_channel_id: sc, vc and map are read from the three texts, so the
      number vc stops at the next dot. */
  function SplitChannelId(input: string): (r: Result<(int32, int32, int32), ConfigError>)
    ensures '.' !in input <==> r == Failure(NoDots)
  {
    match ChannelIdTexts(input)
    case Failure(e) => Failure(e)
    case Success((sc, vc, mapId)) => Triple(Number(sc), Number(vc), Number(mapId))
  }

  /** The three numbers of a channel id, or the error of the first that
      cannot be read. */
  function Triple(sc: Result<int32, ConfigError>, vc: Result<int32, ConfigError>,
                  mapId: Result<int32, ConfigError>): Result<(int32, int32, int32), ConfigError>
  {
    if sc.Failure? then Failure(sc.error)
    else if vc.Failure? then Failure(vc.error)
    else if mapId.Failure? then Failure(mapId.error)
    else Success((sc.value, vc.value, mapId.value))
  }

  /** A text with one dot is refused. */
  lemma ChannelIdOneDot(a: string, c: string)
    requires '.' !in a && '.' !in c
    ensures SplitChannelId(a + "." + c) == Failure(OnlyOneDot)
  {
    assert ChannelIdTexts(a + "." + c) == Failure(OnlyOneDot) by {
      var input := a + "." + c;
      FirstIndexAfter(a, "." + c, '.');
      assert input == a + ("." + c);
      LastIndexAppend(a + ".", c, '.');
      assert LastIndex(a + ".", '.') == Some(|a|);
    }
  }

  /** The texts of a dot-free head, a dot, a middle, a dot and a dot-free
      tail. */
  lemma ChannelIdTextsOf(a: string, b: string, c: string)
    requires '.' !in a && '.' !in c
    ensures ChannelIdTexts(a + "." + b + "." + c) == Success((a, b + ".", c))
  {
    DotPositions(a, b, c);
    DotSlices(a, b, c);
  }

  /** Where the first and the last dot of a.b.c are. */
  lemma DotPositions(a: string, b: string, c: string)
    requires '.' !in a && '.' !in c
    ensures FirstIndex(a + "." + b + "." + c, '.') == Some(|a|)
    ensures LastIndex(a + "." + b + "." + c, '.') == Some(|a + "." + b|)
  {
    FirstDot(a, b, c);
    LastDot(a, b, c);
  }

  lemma FirstDot(a: string, b: string, c: string)
    requires '.' !in a
    ensures FirstIndex(a + "." + b + "." + c, '.') == Some(|a|)
  {
    assert a + "." + b + "." + c == a + ("." + b + "." + c);
    FirstIndexAfter(a, "." + b + "." + c, '.');
  }

  lemma LastDot(a: string, b: string, c: string)
    requires '.' !in c
    ensures LastIndex(a + "." + b + "." + c, '.') == Some(|a + "." + b|)
  {
    LastIndexBefore(a + "." + b, c, '.');
  }

  /** The last c of z + [c] + t, when t has none, is the one after z. */
  lemma LastIndexBefore(z: string, t: string, c: char)
    requires c !in t
    ensures LastIndex(z + [c] + t, c) == Some(|z|)
  {
    LastIndexAppend(z + [c], t, c);
    LastIndexSnoc(z, c);
  }

  /** The three texts between the dots of a.b.c. */
  lemma DotSlices(a: string, b: string, c: string)
    ensures var input := a + "." + b + "." + c;
      && input[..|a|] == a
      && input[|a| + 1..|a + "." + b| + 1] == b + "."
      && input[|a + "." + b| + 1..] == c
  {
  }

  /** Every text with two dots or more is a dot-free head, a dot, a middle, a
      dot and a dot-free tail: sc is the head, map the tail, and vc the
      middle read up to its first dot. */
  lemma ChannelIdParts(a: string, b: string, c: string)
    requires '.' !in a && '.' !in c
    ensures SplitChannelId(a + "." + b + "." + c) ==
      Triple(Number(a), Number(b + "."), Number(c))
  {
    ChannelIdTextsOf(a, b, c);
  }

  /** In "a.b.x.c" the part x is never read: the result is that of "a.b.c". */
  lemma ChannelIdIgnoresThirdPart(a: string, b: string, x: string, c: string)
    requires '.' !in a && '.' !in b && '.' !in c
    ensures SplitChannelId(a + "." + b + "." + x + "." + c) == SplitChannelId(a + "." + b + "." + c)
  {
    var bx := b + "." + x;
    Regroup(a, b, x, c);
    ChannelIdParts(a, bx, c);
    ChannelIdParts(a, b, c);
    NumberStopsAtDot(b, "." + x + ".");
    NumberStopsAtDot(b, ".");
  }

  /** a.b.x.c is a, a dot, b.x, a dot and c; and b.x. is b followed by .x. */
  lemma Regroup(a: string, b: string, x: string, c: string)
    ensures a + "." + b + "." + x + "." + c == a + "." + (b + "." + x) + "." + c
    ensures (b + "." + x) + "." == b + ("." + x + ".")
  {
  }

  /** The number stoi reads ends at a dot. */
  lemma NumberStopsAtDot(s: string, t: string)
    requires t != [] && t[0] == '.'
    ensures Number(s + t) == Number(s)
  {
    StoiStopsAt(s, t);
  }

  /** Decimal output holds no dot. */
  lemma NoDotInDecimal(n: int)
    ensures '.' !in IntToDecimal(n)
  {
    var s := IntToDecimal(n);
    if n < 0 {
      var u := NatToDecimal(-n);
      assert s == "-" + u;
      assert forall i :: 0 <= i < |u| ==> IsDecimalDigit(u[i]);
    }
  }

  /** "sc.vc.map" written in decimal is read back. */
  lemma ChannelIdRoundTrip(sc: int32, vc: int32, mapId: int32)
    ensures SplitChannelId(IntToDecimal(sc) + "." + IntToDecimal(vc) + "." + IntToDecimal(mapId))
      == Success((sc, vc, mapId))
  {
    NoDotInDecimal(sc);
    NoDotInDecimal(mapId);
    ChannelIdParts(IntToDecimal(sc), IntToDecimal(vc), IntToDecimal(mapId));
    StoiStopsAt(IntToDecimal(vc), ".");
    StoiOfDecimal(sc, 10);
    StoiOfDecimal(vc, 10);
    StoiOfDecimal(mapId, 10);
  }

  /** The default channel "66.0.1" of both directions. */
  lemma DefaultChannel()
    ensures SplitChannelId("66.0.1") == Success((66, 0, 1))
  {
    assert IntToDecimal(66) == "66" by {
      assert NatToDecimal(66) == NatToDecimal(6) + [DigitChar(6)];
    }
    assert IntToDecimal(0) == "0";
    assert IntToDecimal(1) == "1";
    assert "66.0.1" == IntToDecimal(66) + "." + IntToDecimal(0) + "." + IntToDecimal(1);
    ChannelIdRoundTrip(66, 0, 1);
  }

  /** The default tunnel address "10.0.0.1/24". */
  lemma DefaultAddress()
    ensures SplitCidrAddr("10.0.0.1/24") == Success("10.0.0.1")
    ensures SplitCidrMask("10.0.0.1/24") == Success(24)
  {
    assert IntToDecimal(24) == "24" by {
      assert NatToDecimal(24) == NatToDecimal(2) + [DigitChar(4)];
    }
    assert "10.0.0.1/24" == "10.0.0.1" + "/" + IntToDecimal(24);
    CidrRoundTrip("10.0.0.1", 24);
  }
}
