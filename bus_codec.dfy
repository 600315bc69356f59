/** The pure part of the USLP server's bus codec (server-uslp/src/bus_io.cpp):
    the string forms of QoS, event kinds and flags, the channel-id topic
    suffix, the JSON field access of nlohmann::json as the parsers use it, the
    three parsers of inbound metadata, the classification of an inbound
    message by topic, the reading of one multipart message off the subscriber
    socket, and the wire form of the three outbound messages. */
module BusCodec {
  import opened Wrappers
  import opened Ints
  import opened Strings
  import opened BusMessages

  // ---------------------------------------------------------------------
  // Topics
  // ---------------------------------------------------------------------

  const TOPIC_DOWNLINK_SDU: string := "uslp.downlink_sdu"
  const TOPIC_UPLINK_SDU_REQUEST: string := "uslp.uplink_sdu_request"
  const TOPIC_UPLINK_SDU_EVENT: string := "uslp.uplink_sdu_event"
  const TOPIC_UPLINK_FRAME: string := "radio.uplink_frame"
  const TOPIC_DOWNLINK_FRAME: string := "radio.downlink_frame"
  const TOPIC_UPLINK_STATE: string := "radio.uplink_state"

  // ---------------------------------------------------------------------
  // JSON values and the field access of nlohmann::json
  // ---------------------------------------------------------------------

  /** A JSON value. Numbers are integers (floating-point numbers are not
      modelled); objects map keys to values. */
  datatype Json =
    | JNull
    | JBool(b: bool)
    | JNumber(n: int)
    | JString(s: string)
    | JArray(items: seq<Json>)
    | JObject(fields: map<string, Json>)

  /** Why decoding a message failed (the exceptions the parsers throw). */
  datatype BusError =
    | MissingField(key: string)
    | JsonTypeError
    | InvalidQos(text: string)
    | BadTopic(topic: string)

  /** json::find: the member under key; any non-object has no members. */
  function Find(j: Json, key: string): (r: Option<Json>)
    ensures r.Some? <==> j.JObject? && key in j.fields
    ensures r.Some? ==> r.value == j.fields[key]
  {
    if j.JObject? && key in j.fields then Some(j.fields[key]) else None
  }

  /** get<int>(): numbers and booleans convert (static_cast, so modulo 2^32),
      anything else is a type error. */
  function GetInt(j: Json): (r: Result<int32, BusError>)
    ensures r.Success? <==> j.JNumber? || j.JBool?
    ensures j.JNumber? ==> r.value == ToInt32(j.n)
  {
    match j
    case JNumber(n) => Success(ToInt32(n))
    case JBool(b) => Success(if b then 1 else 0)
    case _ => Failure(JsonTypeError)
  }

  /** get<uint64_t>(): uint64_t is nlohmann's own unsigned number type, whose
      conversion takes numbers only (modulo 2^64); a boolean, unlike for
      get<int>, is a type error. */
  function GetUint64(j: Json): (r: Result<uint64, BusError>)
    ensures r.Success? <==> j.JNumber?
    ensures r.Success? ==> r.value == ToUint64(j.n)
  {
    match j
    case JNumber(n) => Success(ToUint64(n))
    case _ => Failure(JsonTypeError)
  }

  /** get<bool>(): only a boolean converts. */
  function GetBool(j: Json): (r: Result<bool, BusError>)
    ensures r.Success? <==> j.JBool?
    ensures r.Success? ==> r.value == j.b
  {
    if j.JBool? then Success(j.b) else Failure(JsonTypeError)
  }

  /** get<std::string>(): only a string converts. */
  function GetString(j: Json): (r: Result<string, BusError>)
    ensures r.Success? <==> j.JString?
    ensures r.Success? ==> r.value == j.s
  {
    if j.JString? then Success(j.s) else Failure(JsonTypeError)
  }

  /** _get_or_die: a missing key is an error naming it (a null value is
      present, and fails in the conversion instead). */
  function GetOrDie<T>(j: Json, key: string, get: Json -> Result<T, BusError>): (r: Result<T, BusError>)
    ensures Find(j, key).None? ==> r == Failure(MissingField(key))
    ensures Find(j, key).Some? ==> r == get(Find(j, key).value)
  {
    match Find(j, key)
    case None => Failure(MissingField(key))
    case Some(v) => get(v)
  }

  // ---------------------------------------------------------------------
  // QoS and event kinds
  // ---------------------------------------------------------------------

  function QosToString(q: Qos): string {
    match q
    case Expedited => "expedited"
    case SequenceControlled => "sequence_controlled"
  }

  /** _qos_from_string: the inverse of QosToString; any other text is an
      invalid argument. */
  function QosFromString(s: string): (r: Result<Qos, BusError>)
    ensures r.Success? ==> QosToString(r.value) == s
    ensures r.Failure? ==> (r.error == InvalidQos(s) &&
      s != QosToString(Expedited) && s != QosToString(SequenceControlled))
  {
    if s == "expedited" then Success(Expedited)
    else if s == "sequence_controlled" then Success(SequenceControlled)
    else Failure(InvalidQos(s))
  }

  lemma QosRoundTrip(q: Qos)
    ensures QosFromString(QosToString(q)) == Success(q)
  {
  }

  /** The names the bus uses for the five event kinds. */
  function EventKindName(k: EventKind): string {
    match k
    case SduAccepted => "sdu_accepted"
    case SduRejected => "sdu_rejected"
    case SduSentToRadio => "sdu_sent_to_radio"
    case SduRadiated => "sdu_radiated"
    case SduRadiationFailed => "sdu_radiation_failed"
  }

  /** How a bus client reads an event name back. */
  function EventKindFromName(s: string): (r: Option<EventKind>)
    ensures r.Some? ==> EventKindName(r.value) == s
  {
    if s == "sdu_accepted" then Some(SduAccepted)
    else if s == "sdu_rejected" then Some(SduRejected)
    else if s == "sdu_sent_to_radio" then Some(SduSentToRadio)
    else if s == "sdu_radiated" then Some(SduRadiated)
    else if s == "sdu_radiation_failed" then Some(SduRadiationFailed)
    else None
  }

  /** The five kinds have five distinct names, each read back as its kind. */
  lemma EventKindNamesDistinct(k1: EventKind, k2: EventKind)
    ensures EventKindFromName(EventKindName(k1)) == Some(k1)
    ensures EventKindName(k1) == EventKindName(k2) ==> k1 == k2
  {
  }

  // ---------------------------------------------------------------------
  // Flags
  // ---------------------------------------------------------------------

  /** The six flags of a received MAP SDU. */
  datatype FlagBit = Incomplete | Idle | Corrupted | Mapa | Mapp | Stray

  function Mask(b: FlagBit): Flags {
    match b
    case Incomplete => INCOMPLETE
    case Idle => IDLE
    case Corrupted => CORRUPTED
    case Mapa => MAPA
    case Mapp => MAPP
    case Stray => STRAY
  }

  function FlagName(b: FlagBit): string {
    match b
    case Incomplete => "incomplete"
    case Idle => "idle"
    case Corrupted => "corrupted"
    case Mapa => "mapa"
    case Mapp => "mapp"
    case Stray => "stray"
  }

  /** Position of a flag in the table _downlink_sdu_flags_to_string walks. */
  function Rank(b: FlagBit): (k: nat)
    ensures k < 6
  {
    match b
    case Incomplete => 0
    case Idle => 1
    case Corrupted => 2
    case Mapa => 3
    case Mapp => 4
    case Stray => 5
  }

  /** The table's order. */
  const FLAG_ORDER: seq<FlagBit> := [Incomplete, Idle, Corrupted, Mapa, Mapp, Stray]

  lemma RankInOrder(k: nat)
    requires k < 6
    ensures Rank(FLAG_ORDER[k]) == k
  {
  }

  /** Whether the flag word has b's bit set. */
  predicate IsSet(flags: Flags, b: FlagBit) {
    flags & Mask(b) != 0
  }

  /** The flags of order that are set in flags, in order. */
  function SetBitsIn(order: seq<FlagBit>, flags: Flags): seq<FlagBit> {
    if order == [] then []
    else
      var last := order[|order| - 1];
      SetBitsIn(order[..|order| - 1], flags) + (if IsSet(flags, last) then [last] else [])
  }

  function SetBits(flags: Flags): seq<FlagBit> {
    SetBitsIn(FLAG_ORDER, flags)
  }

  function NamesOf(bits: seq<FlagBit>): (names: seq<string>)
    ensures |names| == |bits|
    ensures forall i :: 0 <= i < |bits| ==> names[i] == FlagName(bits[i])
  {
    if bits == [] then [] else NamesOf(bits[..|bits| - 1]) + [FlagName(bits[|bits| - 1])]
  }

  /** What _downlink_sdu_flags_to_string returns. */
  function FlagNames(flags: Flags): seq<string> {
    NamesOf(SetBits(flags))
  }

  /** A flag order lists each flag at most once, by increasing rank. */
  predicate Ranked(order: seq<FlagBit>) {
    forall i, j :: 0 <= i < j < |order| ==> Rank(order[i]) < Rank(order[j])
  }

  /** The set flags of an order are the flags of the order that are set, and
      they keep the order's ranking. */
  lemma SetBitsInFacts(order: seq<FlagBit>, flags: Flags)
    ensures forall b :: b in SetBitsIn(order, flags) <==> b in order && IsSet(flags, b)
    ensures Ranked(order) ==> Ranked(SetBitsIn(order, flags))
    ensures forall i :: 0 <= i < |SetBitsIn(order, flags)| ==> SetBitsIn(order, flags)[i] in order
  {
    SetBitsInMembers(order, flags);
    if Ranked(order) {
      SetBitsInRanked(order, flags);
    }
  }

  lemma {:induction false} SetBitsInMembers(order: seq<FlagBit>, flags: Flags)
    ensures forall b :: b in SetBitsIn(order, flags) <==> b in order && IsSet(flags, b)
  {
    if order != [] {
      var init := order[..|order| - 1];
      SetBitsInMembers(init, flags);
      assert order == init + [order[|order| - 1]];
    }
  }

  lemma {:induction false} SetBitsInRanked(order: seq<FlagBit>, flags: Flags)
    requires Ranked(order)
    ensures Ranked(SetBitsIn(order, flags))
  {
    if order != [] {
      var init := order[..|order| - 1];
      var last := order[|order| - 1];
      assert Ranked(init) by {
        forall i, j | 0 <= i < j < |init| ensures Rank(init[i]) < Rank(init[j]) {
          assert init[i] == order[i] && init[j] == order[j];
        }
      }
      SetBitsInRanked(init, flags);
      SetBitsInMembers(init, flags);
      var prev := SetBitsIn(init, flags);
      forall i | 0 <= i < |prev| ensures Rank(prev[i]) < Rank(last) {
        assert prev[i] in prev;
        assert prev[i] in init;
        var k :| 0 <= k < |init| && init[k] == prev[i];
        assert init[k] == order[k];
      }
    }
  }

  /** The set flags are exactly the flags whose bit is set, each once, in the
      table's order. */
  lemma SetBitsExact(flags: Flags)
    ensures forall b :: b in SetBits(flags) <==> IsSet(flags, b)
    ensures Ranked(SetBits(flags))
  {
    SetBitsInFacts(FLAG_ORDER, flags);
    assert Ranked(FLAG_ORDER);
    forall b ensures b in FLAG_ORDER {
      assert FLAG_ORDER[Rank(b)] == b;
    }
  }

  /** The flags list holds exactly the names of the set bits. */
  lemma FlagNamesExact(flags: Flags)
    ensures forall b :: FlagName(b) in FlagNames(flags) <==> IsSet(flags, b)
  {
    SetBitsExact(flags);
    var bits := SetBits(flags);
    var names := FlagNames(flags);
    forall b ensures FlagName(b) in names <==> IsSet(flags, b) {
      if FlagName(b) in names {
        var i :| 0 <= i < |names| && names[i] == FlagName(b);
        FlagNameInjective(bits[i], b);
      }
      if b in bits {
        var i :| 0 <= i < |bits| && bits[i] == b;
        assert names[i] == FlagName(b);
      }
    }
  }

  /** No name appears twice in the flags list, and the names follow the order
      incomplete, idle, corrupted, mapa, mapp, stray. */
  lemma FlagNamesOrdered(flags: Flags)
    ensures forall i, j :: 0 <= i < j < |FlagNames(flags)| ==>
      Rank(SetBits(flags)[i]) < Rank(SetBits(flags)[j]) && FlagNames(flags)[i] != FlagNames(flags)[j]
  {
    SetBitsExact(flags);
    var bits := SetBits(flags);
    var names := FlagNames(flags);
    forall i, j | 0 <= i < j < |names| ensures names[i] != names[j] {
      FlagNameInjective(bits[i], bits[j]);
    }
  }

  lemma FlagNameInjective(a: FlagBit, b: FlagBit)
    ensures FlagName(a) == FlagName(b) ==> a == b
  {
  }

  /** m if c holds, no bit otherwise. */
  function BitIf(c: bool, m: Flags): Flags {
    if c then m else 0
  }

  /** The flag word a list of flags stands for: each listed flag's bit. */
  function FlagsOf(bits: seq<FlagBit>): Flags {
    BitIf(Incomplete in bits, INCOMPLETE) | BitIf(Idle in bits, IDLE) | BitIf(Corrupted in bits, CORRUPTED) |
    BitIf(Mapa in bits, MAPA) | BitIf(Mapp in bits, MAPP) | BitIf(Stray in bits, STRAY)
  }

  /** Collecting the six known bits one by one keeps exactly those bits. */
  lemma KnownBits(flags: Flags)
    ensures BitIf(IsSet(flags, Incomplete), INCOMPLETE) | BitIf(IsSet(flags, Idle), IDLE) |
      BitIf(IsSet(flags, Corrupted), CORRUPTED) | BitIf(IsSet(flags, Mapa), MAPA) |
      BitIf(IsSet(flags, Mapp), MAPP) | BitIf(IsSet(flags, Stray), STRAY) == flags & 63
  {
  }

  /** Reading the set flags back yields the flag word restricted to the six
      known bits. */
  lemma FlagsRoundTrip(flags: Flags)
    ensures FlagsOf(SetBits(flags)) == flags & 63
  {
    SetBitsExact(flags);
    KnownBits(flags);
  }

  /** How a bus client reads a flag name back. */
  function FlagOfName(s: string): (r: Option<FlagBit>)
    ensures r.Some? ==> FlagName(r.value) == s
  {
    if s == "incomplete" then Some(Incomplete)
    else if s == "idle" then Some(Idle)
    else if s == "corrupted" then Some(Corrupted)
    else if s == "mapa" then Some(Mapa)
    else if s == "mapp" then Some(Mapp)
    else if s == "stray" then Some(Stray)
    else None
  }

  lemma FlagOfNameOfFlag(b: FlagBit)
    ensures FlagOfName(FlagName(b)) == Some(b)
  {
  }

  // ---------------------------------------------------------------------
  // Channel id and topics
  // ---------------------------------------------------------------------

  /** _channel_id_to_topic: the base, then the three ids in decimal, each after
      a dot. */
  function ChannelIdToTopic(base: string, id: ChannelId): string {
    base + "." + IntToDecimal(id.sc) + "." + IntToDecimal(id.vc) + "." + IntToDecimal(id.mapId)
  }

  lemma TopicStartsWith(base: string, id: ChannelId)
    ensures StartsWith(ChannelIdToTopic(base, id), base + ".")
  {
    var rest := IntToDecimal(id.sc) + "." + IntToDecimal(id.vc) + "." + IntToDecimal(id.mapId);
    assert ChannelIdToTopic(base, id) == (base + ".") + rest;
  }

  /** The channel id the last three tokens of a topic denote, each read by
      stoi in automatic base; fewer tokens or a failed number give nothing. */
  function ChannelIdOfTokens(parts: seq<string>): (r: Option<ChannelId>)
    ensures |parts| < 3 ==> r.None?
    ensures r.Some? <==> (|parts| >= 3 && Stoi(parts[|parts| - 3], 0).Success? &&
      Stoi(parts[|parts| - 2], 0).Success? && Stoi(parts[|parts| - 1], 0).Success?)
    ensures r.Some? ==> r.value == ChannelId(Stoi(parts[|parts| - 3], 0).value,
      Stoi(parts[|parts| - 2], 0).value, Stoi(parts[|parts| - 1], 0).value)
  {
    if |parts| < 3 then None
    else
      var sc := Stoi(parts[|parts| - 3], 0);
      var vc := Stoi(parts[|parts| - 2], 0);
      var mapId := Stoi(parts[|parts| - 1], 0);
      if sc.Success? && vc.Success? && mapId.Success? then Some(ChannelId(sc.value, vc.value, mapId.value))
      else None
  }

  /** _channel_id_from_topic: the id of the topic's last three '.'-separated
      tokens; anything else is an error naming the topic. */
  function ChannelIdFromTopic(topic: string): (r: Result<ChannelId, BusError>)
    ensures |Split(topic, '.')| < 3 ==> r == Failure(BadTopic(topic))
    ensures r.Failure? ==> r.error == BadTopic(topic)
  {
    match ChannelIdOfTokens(Split(topic, '.'))
    case None => Failure(BadTopic(topic))
    case Some(id) => Success(id)
  }

  /** A topic's channel id is read exactly when its last three tokens are
      all numbers stoi reads in automatic base, and it is made of them. */
  lemma ChannelIdFromTokens(topic: string, p: seq<string>)
    requires p == Split(topic, '.')
    ensures ChannelIdFromTopic(topic).Success? <==> (|p| >= 3 && Stoi(p[|p| - 3], 0).Success? &&
      Stoi(p[|p| - 2], 0).Success? && Stoi(p[|p| - 1], 0).Success?)
    ensures ChannelIdFromTopic(topic).Success? ==> (ChannelIdFromTopic(topic).value ==
      ChannelId(Stoi(p[|p| - 3], 0).value, Stoi(p[|p| - 2], 0).value, Stoi(p[|p| - 1], 0).value))
  {
    var t := ChannelIdOfTokens(p);
    assert ChannelIdFromTopic(topic) == if t.Some? then Success(t.value) else Failure(BadTopic(topic));
  }

  lemma DecimalHasNoDot(n: int32)
    ensures IntToDecimal(n) != [] && '.' !in IntToDecimal(n)
  {
    var s := IntToDecimal(n);
    if n < 0 {
      var m: nat := -(n as int);
      assert s == "-" + NatToDecimal(m);
      assert forall i :: 1 <= i < |s| ==> s[i] == NatToDecimal(m)[i - 1];
    }
  }

  /** Tokens ending in the decimal forms of an id's three numbers denote that id. */
  lemma TokensOfDecimals(parts: seq<string>, id: ChannelId)
    requires |parts| >= 3
    requires parts[|parts| - 3] == IntToDecimal(id.sc)
    requires parts[|parts| - 2] == IntToDecimal(id.vc)
    requires parts[|parts| - 1] == IntToDecimal(id.mapId)
    ensures ChannelIdOfTokens(parts) == Some(id)
  {
    StoiOfDecimal(id.sc, 0);
    StoiOfDecimal(id.vc, 0);
    StoiOfDecimal(id.mapId, 0);
  }

  /** Reading the channel id back from a topic written for it gives that id,
      whatever the topic base. */
  lemma TopicRoundTrip(base: string, id: ChannelId)
    ensures ChannelIdFromTopic(ChannelIdToTopic(base, id)) == Success(id)
  {
    DecimalHasNoDot(id.sc);
    DecimalHasNoDot(id.vc);
    DecimalHasNoDot(id.mapId);
    SplitLastThree(base, IntToDecimal(id.sc), IntToDecimal(id.vc), IntToDecimal(id.mapId), '.');
    TokensOfDecimals(Split(ChannelIdToTopic(base, id), '.'), id);
  }

  /** A topic base.a.b.c names the channel id of the numbers a, b and c, and
      is a bad topic when one of them is not a number. */
  lemma ChannelIdOfJoined(base: string, a: string, b: string, c: string)
    requires a != [] && b != [] && c != [] && '.' !in a && '.' !in b && '.' !in c
    ensures var r := ChannelIdFromTopic(base + "." + a + "." + b + "." + c);
      (r.Success? <==> (Stoi(a, 0).Success? && Stoi(b, 0).Success? && Stoi(c, 0).Success?)) &&
      (r.Success? ==> r.value == ChannelId(Stoi(a, 0).value, Stoi(b, 0).value, Stoi(c, 0).value)) &&
      (r.Failure? ==> r.error == BadTopic(base + "." + a + "." + b + "." + c))
  {
    var topic := base + "." + a + "." + b + "." + c;
    var p := Split(topic, '.');
    assert |p| >= 3 && p[|p| - 3] == a && p[|p| - 2] == b && p[|p| - 1] == c by {
      SplitLastThree(base, a, b, c, '.');
    }
    TokensEndingIn(p, a, b, c);
  }

  /** Tokens ending in a, b, c denote the id of those three numbers. */
  lemma TokensEndingIn(parts: seq<string>, a: string, b: string, c: string)
    requires |parts| >= 3 && parts[|parts| - 3] == a && parts[|parts| - 2] == b && parts[|parts| - 1] == c
    ensures ChannelIdOfTokens(parts) ==
      if Stoi(a, 0).Success? && Stoi(b, 0).Success? && Stoi(c, 0).Success?
      then Some(ChannelId(Stoi(a, 0).value, Stoi(b, 0).value, Stoi(c, 0).value)) else None
  {
  }

  /** The ids of a topic are read in automatic base: "0x1F" is hexadecimal
      and "010" octal. */
  lemma HexOctalTopic()
    ensures ChannelIdFromTopic("x.0x1F.010.7") == Success(ChannelId(31, 8, 7))
  {
    assert "x.0x1F.010.7" == "x" + "." + "0x1F" + "." + "010" + "." + "7";
    ChannelIdOfJoined("x", "0x1F", "010", "7");
    HexToken();
    OctalToken();
    assert IntToDecimal(7) == "7";
    StoiOfDecimal(7, 0);
  }

  lemma HexToken()
    ensures Stoi("0x1F", 0) == Success(31)
  {
    assert "0x1F" == "0x" + "1F";
    assert "1F"[..1] == "1";
    assert DigitsValue("1F", 16) == 31;
    StoiHex("1F");
  }

  lemma OctalToken()
    ensures Stoi("010", 0) == Success(8)
  {
    assert "010"[..2] == "01" && "01"[..1] == "0";
    assert DigitsValue("010", 8) == 8;
    StoiOctal("010");
  }

  /** A last token that is not a number makes the topic a bad one. */
  lemma NonNumericTopicRaises()
    ensures ChannelIdFromTopic("x.1.2.map") == Failure(BadTopic("x.1.2.map"))
  {
    assert "x.1.2.map" == "x" + "." + "1" + "." + "2" + "." + "map";
    ChannelIdOfJoined("x", "1", "2", "map");
    WordIsNotNumber();
  }

  lemma WordIsNotNumber()
    ensures Stoi("map", 0) == Failure(InvalidArgument)
  {
    assert DropSpaces("map") == "map";
    assert Radix("map", 0) == 10;
    assert DigitRun("map", 10) == [];
  }

  // ---------------------------------------------------------------------
  // Parsing the three inbound kinds
  // ---------------------------------------------------------------------

  /** parse_sdu_uplink_request_message: the topic's channel id must parse, but
      the ids in the metadata are the ones the request carries. */
  function ParseSduUplinkRequest(topic: string, j: Json, payload: seq<byte>): (r: Result<InputMessage, BusError>)
    ensures r.Success? ==> r.value.SduUplinkRequest? && r.value.data == payload
    ensures ChannelIdFromTopic(topic).Failure? ==> r.Failure?
    ensures (Find(j, "sc_id").None? || Find(j, "vchannel_id").None? || Find(j, "map_id").None? ||
      Find(j, "qos").None? || Find(j, "cookie").None?) ==> r.Failure?
    // The cookie is read with get<uint64_t>: anything but a number throws.
    ensures Find(j, "cookie").Some? && !Find(j, "cookie").value.JNumber? ==> r.Failure?
    ensures r.Success? ==> (Find(j, "cookie").Some? && Find(j, "cookie").value.JNumber? &&
      r.value.cookie == ToUint64(Find(j, "cookie").value.n))
  {
    var topicId := ChannelIdFromTopic(topic);
    var sc := GetOrDie(j, "sc_id", GetInt);
    var vc := GetOrDie(j, "vchannel_id", GetInt);
    var mapId := GetOrDie(j, "map_id", GetInt);
    var qosText := GetOrDie(j, "qos", GetString);
    var qos := if qosText.Success? then QosFromString(qosText.value) else Failure(qosText.error);
    var cookie := GetOrDie(j, "cookie", GetUint64);
    if topicId.Failure? then Failure(topicId.error)
    else if sc.Failure? then Failure(sc.error)
    else if vc.Failure? then Failure(vc.error)
    else if mapId.Failure? then Failure(mapId.error)
    else if qos.Failure? then Failure(qos.error)
    else if cookie.Failure? then Failure(cookie.error)
    else Success(SduUplinkRequest(ChannelId(sc.value, vc.value, mapId.value), qos.value, cookie.value, payload))
  }

  /** parse_downlink_frame_message: frame_no is read as 64 bits and stored in
      16. */
  function ParseDownlinkFrame(j: Json, payload: seq<byte>): (r: Result<InputMessage, BusError>)
    ensures r.Success? ==> r.value.RadioDownlinkFrame? && r.value.data == payload
    ensures Find(j, "checksum_valid").None? || Find(j, "frame_no").None? || Find(j, "cookie").None? ==> r.Failure?
    // Read exactly when checksum_valid is a boolean and frame_no and cookie
    // are numbers; a boolean frame_no or cookie throws.
    ensures r.Success? <==> (Find(j, "checksum_valid").Some? && Find(j, "checksum_valid").value.JBool? &&
      Find(j, "frame_no").Some? && Find(j, "frame_no").value.JNumber? &&
      Find(j, "cookie").Some? && Find(j, "cookie").value.JNumber?)
    ensures r.Success? ==> (r.value.checksumValid == Find(j, "checksum_valid").value.b &&
      r.value.frameNo == ToUint16(ToUint64(Find(j, "frame_no").value.n)) &&
      r.value.frameCookie == ToUint64(Find(j, "cookie").value.n))
  {
    var checksum := GetOrDie(j, "checksum_valid", GetBool);
    var frameNo := GetOrDie(j, "frame_no", GetUint64);
    var cookie := GetOrDie(j, "cookie", GetUint64);
    if checksum.Failure? then Failure(checksum.error)
    else if frameNo.Failure? then Failure(frameNo.error)
    else if cookie.Failure? then Failure(cookie.error)
    else Success(RadioDownlinkFrame(checksum.value, cookie.value, ToUint16(frameNo.value), payload))
  }

  /** A field get_optional_cookie reads without throwing: absent, null or a
      number. */
  predicate CookieFieldReadable(j: Json, key: string) {
    Find(j, key).None? || Find(j, key).value.JNull? || Find(j, key).value.JNumber?
  }

  /** An optional cookie: absent or null is none; otherwise get<uint64_t>. */
  function OptionalCookie(j: Json, key: string): (r: Result<Option<uint64>, BusError>)
    ensures Find(j, key).None? || Find(j, key) == Some(JNull) ==> r == Success(None)
    ensures r.Failure? <==> !CookieFieldReadable(j, key)
    ensures r.Success? && r.value.Some? ==> (Find(j, key).Some? && Find(j, key).value.JNumber? &&
      r.value.value == ToUint64(Find(j, key).value.n))
  {
    match Find(j, key)
    case None => Success(None)
    case Some(v) =>
      if v.JNull? then Success(None)
      else match GetUint64(v)
        case Success(c) => Success(Some(c))
        case Failure(e) => Failure(e)
  }

  /** parse_radio_uplink_state_message: cookie_sent is the done frame and
      cookie_dropped the failed one. */
  function ParseRadioUplinkState(j: Json): (r: Result<InputMessage, BusError>)
    ensures r.Success? ==> r.value.RadioUplinkState?
    ensures r.Success? <==> (CookieFieldReadable(j, "cookie_in_wait") && CookieFieldReadable(j, "cookie_in_progress") &&
      CookieFieldReadable(j, "cookie_sent") && CookieFieldReadable(j, "cookie_dropped"))
  {
    var inWait := OptionalCookie(j, "cookie_in_wait");
    var inProgress := OptionalCookie(j, "cookie_in_progress");
    var sent := OptionalCookie(j, "cookie_sent");
    var dropped := OptionalCookie(j, "cookie_dropped");
    if inWait.Failure? then Failure(inWait.error)
    else if inProgress.Failure? then Failure(inProgress.error)
    else if sent.Failure? then Failure(sent.error)
    else if dropped.Failure? then Failure(dropped.error)
    else Success(RadioUplinkState(inWait.value, inProgress.value, sent.value, dropped.value))
  }

  /** The try block of recv_message: dispatch on the topic (requests by prefix,
      the two radio topics by equality); an unknown topic or a failed parse is
      no message. */
  function Classify(topic: string, j: Json, payload: seq<byte>): (r: Option<InputMessage>)
    ensures r.Some? && r.value.SduUplinkRequest? <==>
      StartsWith(topic, TOPIC_UPLINK_SDU_REQUEST) && ParseSduUplinkRequest(topic, j, payload).Success?
    ensures r.Some? && r.value.RadioDownlinkFrame? <==>
      !StartsWith(topic, TOPIC_UPLINK_SDU_REQUEST) && topic == TOPIC_DOWNLINK_FRAME &&
      ParseDownlinkFrame(j, payload).Success?
    ensures r.Some? && r.value.RadioUplinkState? <==>
      !StartsWith(topic, TOPIC_UPLINK_SDU_REQUEST) && topic == TOPIC_UPLINK_STATE &&
      ParseRadioUplinkState(j).Success?
  {
    if StartsWith(topic, TOPIC_UPLINK_SDU_REQUEST) then
      match ParseSduUplinkRequest(topic, j, payload)
      case Success(m) => Some(m)
      case Failure(_) => None
    else if topic == TOPIC_DOWNLINK_FRAME then
      match ParseDownlinkFrame(j, payload)
      case Success(m) => Some(m)
      case Failure(_) => None
    else if topic == TOPIC_UPLINK_STATE then
      match ParseRadioUplinkState(j)
      case Success(m) => Some(m)
      case Failure(_) => None
    else None
  }

  // ---------------------------------------------------------------------
  // What bus clients put in the metadata of inbound messages
  // ---------------------------------------------------------------------

  /** The metadata an uplink SDU request carries. */
  function RequestMetadata(id: ChannelId, qos: Qos, cookie: uint64): Json {
    JObject(map["sc_id" := JNumber(id.sc), "vchannel_id" := JNumber(id.vc), "map_id" := JNumber(id.mapId),
                "qos" := JString(QosToString(qos)), "cookie" := JNumber(cookie)])
  }

  /** A request's metadata, under a topic whose channel id reads, parses to
      the ids, quality of service and cookie it carries. */
  lemma ParseRequestMetadata(topic: string, id: ChannelId, qos: Qos, cookie: uint64, data: seq<byte>)
    requires ChannelIdFromTopic(topic).Success?
    ensures ParseSduUplinkRequest(topic, RequestMetadata(id, qos, cookie), data)
      == Success(SduUplinkRequest(id, qos, cookie, data))
  {
    RequestMetadataFields(id, qos, cookie);
  }

  lemma RequestMetadataFields(id: ChannelId, qos: Qos, cookie: uint64)
    ensures var j := RequestMetadata(id, qos, cookie);
      GetOrDie(j, "sc_id", GetInt) == Success(id.sc) &&
      GetOrDie(j, "vchannel_id", GetInt) == Success(id.vc) &&
      GetOrDie(j, "map_id", GetInt) == Success(id.mapId) &&
      GetOrDie(j, "qos", GetString) == Success(QosToString(qos)) &&
      QosFromString(QosToString(qos)) == Success(qos) &&
      GetOrDie(j, "cookie", GetUint64) == Success(cookie)
  {
    QosRoundTrip(qos);
    var j := RequestMetadata(id, qos, cookie);
    assert j.fields["sc_id"] == JNumber(id.sc);
    assert j.fields["vchannel_id"] == JNumber(id.vc);
    assert j.fields["map_id"] == JNumber(id.mapId);
    assert j.fields["qos"] == JString(QosToString(qos));
    assert j.fields["cookie"] == JNumber(cookie);
  }

  /** A request published under any topic with a well-formed channel-id suffix
      is read with the ids of its metadata, whatever ids the topic names. */
  lemma RequestRoundTrip(topicId: ChannelId, id: ChannelId, qos: Qos, cookie: uint64, data: seq<byte>)
    ensures Classify(ChannelIdToTopic(TOPIC_UPLINK_SDU_REQUEST, topicId), RequestMetadata(id, qos, cookie), data)
      == Some(SduUplinkRequest(id, qos, cookie, data))
  {
    var topic := ChannelIdToTopic(TOPIC_UPLINK_SDU_REQUEST, topicId);
    TopicStartsWith(TOPIC_UPLINK_SDU_REQUEST, topicId);
    StartsWithDot(topic, TOPIC_UPLINK_SDU_REQUEST);
    TopicRoundTrip(TOPIC_UPLINK_SDU_REQUEST, topicId);
    ParseRequestMetadata(topic, id, qos, cookie, data);
  }

  lemma StartsWithDot(l: string, r: string)
    requires StartsWith(l, r + ".")
    ensures StartsWith(l, r)
  {
    var t :| l == r + "." + t;
    assert l == r + ("." + t);
  }

  /** A request topic without a channel-id suffix makes the whole message
      nothing, metadata notwithstanding. */
  lemma RequestNeedsTopicIds(topic: string, j: Json, payload: seq<byte>)
    requires StartsWith(topic, TOPIC_UPLINK_SDU_REQUEST)
    requires ChannelIdFromTopic(topic).Failure?
    ensures Classify(topic, j, payload) == None
  {
  }

  /** Three separator-free tokens joined by the separator split back. */
  lemma SplitThree(a: string, b: string, c: string, sep: char)
    requires b != [] && sep !in a && sep !in b && sep !in c
    ensures Split(a + [sep] + b + [sep] + c, sep) == [a, b, c]
  {
    var ab := a + [sep] + b;
    assert Split(ab + [sep] + c, sep) == Split(ab, sep) + [c] by {
      EndsWithoutSep(a + [sep], b, sep);
      SplitAppend(ab, c, sep);
    }
    assert Split(ab, sep) == [a, b] by {
      if a != [] {
        EndsWithoutSep([], a, sep);
        assert [] + a == a;
      }
      SplitAppend(a, b, sep);
    }
  }

  /** A text ending in a non-empty separator-free tail has no trailing
      separator to trim. */
  lemma EndsWithoutSep(s: string, b: string, sep: char)
    requires b != [] && sep !in b
    ensures TrimTrailing(s + b, sep) == s + b
  {
    assert (s + b)[|s + b| - 1] == b[|b| - 1];
  }

  /** "uslp" is not a number. */
  lemma RootIsNoNumber()
    ensures Stoi("uslp", 0) == Failure(InvalidArgument)
  {
    assert DropSpaces("uslp") == "uslp";
    assert DigitRun("uslp", 10) == [];
  }

  /** A request topic whose channel id is written after the last dot with any
      other separator, as in "uslp.uplink_sdu_request.66-0-1", is read as the
      tokens "uslp", "uplink_sdu_request" and the id: "uslp" is not a number,
      so the message is nothing. */
  lemma UndottedIdIsNothing(id: string, j: Json, payload: seq<byte>)
    requires '.' !in id
    ensures Classify(TOPIC_UPLINK_SDU_REQUEST + ("." + id), j, payload) == None
  {
    var topic := TOPIC_UPLINK_SDU_REQUEST + ("." + id);
    UndottedIdIsBadTopic(id);
    StartsWithItsHead(TOPIC_UPLINK_SDU_REQUEST, "." + id);
    RequestNeedsTopicIds(topic, j, payload);
  }

  /** Such a topic has no channel id. */
  lemma UndottedIdIsBadTopic(id: string)
    requires '.' !in id
    ensures ChannelIdFromTopic(TOPIC_UPLINK_SDU_REQUEST + ("." + id)).Failure?
  {
    UndottedIdTokens(id);
    RootIsNoNumber();
  }

  lemma StartsWithItsHead(r: string, t: string)
    ensures StartsWith(r + t, r)
  {
  }

  /** The tokens of such a topic: the first of three is "uslp". */
  lemma UndottedIdTokens(id: string)
    requires '.' !in id
    ensures var parts := Split(TOPIC_UPLINK_SDU_REQUEST + ("." + id), '.');
      |parts| == 3 && parts[0] == "uslp"
  {
    RequestTopicTokens();
    TopicTokensDotFree();
    JoinedTokens(TOPIC_UPLINK_SDU_REQUEST, "uslp", "uplink_sdu_request", id);
  }

  /** A text made of two dot-free tokens, then a dot and a dot-free id, splits
      into those three tokens. */
  lemma JoinedTokens(r: string, a: string, b: string, id: string)
    requires r == a + ['.'] + b && b != [] && '.' !in a && '.' !in b && '.' !in id
    ensures Split(r + ("." + id), '.') == [a, b, id]
  {
    assert r + ("." + id) == a + ['.'] + b + ['.'] + id;
    SplitThree(a, b, id, '.');
  }

  lemma TopicTokensDotFree()
    ensures '.' !in "uslp" && '.' !in "uplink_sdu_request"
  {
  }

  /** The two dot-separated tokens of the request topic. */
  lemma RequestTopicTokens()
    ensures TOPIC_UPLINK_SDU_REQUEST == "uslp" + ['.'] + "uplink_sdu_request"
  {
    var r := TOPIC_UPLINK_SDU_REQUEST;
    assert |r| == 23 && r[4] == '.';
    assert r[..4] == "uslp" && r[5..] == "uplink_sdu_request";
    assert r == r[..4] + [r[4]] + r[5..];
  }

  /** The metadata of a downlink frame from the radio server. */
  function DownlinkFrameMetadata(checksumValid: bool, frameNo: uint64, cookie: uint64): Json {
    JObject(map["checksum_valid" := JBool(checksumValid), "frame_no" := JNumber(frameNo),
                "cookie" := JNumber(cookie)])
  }

  /** A downlink frame is read with its frame number reduced modulo 2^16. */
  lemma DownlinkFrameRoundTrip(checksumValid: bool, frameNo: uint64, cookie: uint64, data: seq<byte>)
    ensures Classify(TOPIC_DOWNLINK_FRAME, DownlinkFrameMetadata(checksumValid, frameNo, cookie), data)
      == Some(RadioDownlinkFrame(checksumValid, cookie, frameNo % TWO_TO_THE_16, data))
  {
    assert !StartsWith(TOPIC_DOWNLINK_FRAME, TOPIC_UPLINK_SDU_REQUEST);
  }

  /** A missing required field of a downlink frame makes it nothing. */
  lemma DownlinkFrameNeedsFields(j: Json, payload: seq<byte>, key: string)
    requires key == "checksum_valid" || key == "frame_no" || key == "cookie"
    requires Find(j, key).None?
    ensures Classify(TOPIC_DOWNLINK_FRAME, j, payload) == None
  {
    assert !StartsWith(TOPIC_DOWNLINK_FRAME, TOPIC_UPLINK_SDU_REQUEST);
  }

  /** A missing required field of a request makes it nothing. */
  lemma RequestNeedsFields(topic: string, j: Json, payload: seq<byte>, key: string)
    requires key == "sc_id" || key == "vchannel_id" || key == "map_id" || key == "qos" || key == "cookie"
    requires Find(j, key).None?
    ensures Classify(topic, j, payload).None? || !Classify(topic, j, payload).value.SduUplinkRequest?
  {
  }

  /** A cookie of the radio's state report as JSON: null for none. */
  function CookieJson(c: Option<uint64>): Json {
    match c
    case None => JNull
    case Some(v) => JNumber(v)
  }

  /** The metadata of a state report from the radio server, with the done and
      failed slots under the keys cookie_sent and cookie_dropped. */
  function UplinkStateMetadata(inWait: Option<uint64>, inProgress: Option<uint64>,
                               sent: Option<uint64>, dropped: Option<uint64>): Json {
    JObject(map["cookie_in_wait" := CookieJson(inWait), "cookie_in_progress" := CookieJson(inProgress),
                "cookie_sent" := CookieJson(sent), "cookie_dropped" := CookieJson(dropped)])
  }

  /** Each slot of a state report is read back as written, null as none and a
      number as that cookie (0 included). */
  lemma UplinkStateRoundTrip(inWait: Option<uint64>, inProgress: Option<uint64>,
                             sent: Option<uint64>, dropped: Option<uint64>, payload: seq<byte>)
    ensures Classify(TOPIC_UPLINK_STATE, UplinkStateMetadata(inWait, inProgress, sent, dropped), payload)
      == Some(RadioUplinkState(inWait, inProgress, sent, dropped))
  {
    var j := UplinkStateMetadata(inWait, inProgress, sent, dropped);
    assert ParseRadioUplinkState(j) == Success(RadioUplinkState(inWait, inProgress, sent, dropped)) by {
      CookieSlot(j, "cookie_in_wait", inWait);
      CookieSlot(j, "cookie_in_progress", inProgress);
      CookieSlot(j, "cookie_sent", sent);
      CookieSlot(j, "cookie_dropped", dropped);
    }
    assert !StartsWith(TOPIC_UPLINK_STATE, TOPIC_UPLINK_SDU_REQUEST);
  }

  /** A slot written with CookieJson reads back as the same cookie. */
  lemma CookieSlot(j: Json, key: string, c: Option<uint64>)
    requires j.JObject? && key in j.fields && j.fields[key] == CookieJson(c)
    ensures OptionalCookie(j, key) == Success(c)
  {
  }

  /** An empty report (all keys absent) has no cookie at all, and a cookie 0 is
      a cookie, not none. */
  lemma UplinkStateAbsentIsNone(payload: seq<byte>)
    ensures Classify(TOPIC_UPLINK_STATE, JObject(map[]), payload) == Some(RadioUplinkState(None, None, None, None))
    ensures Classify(TOPIC_UPLINK_STATE, JObject(map["cookie_sent" := JNumber(0)]), payload)
      == Some(RadioUplinkState(None, None, Some(0), None))
  {
    assert !StartsWith(TOPIC_UPLINK_STATE, TOPIC_UPLINK_SDU_REQUEST);
  }

  /** A boolean cookie or frame_no fails get<uint64_t>, so a downlink frame
      carrying one is no message. */
  lemma BooleanFrameFieldIsNothing(j: Json, payload: seq<byte>, key: string, b: bool)
    requires key == "frame_no" || key == "cookie"
    requires Find(j, key) == Some(JBool(b))
    ensures Classify(TOPIC_DOWNLINK_FRAME, j, payload) == None
  {
    assert !StartsWith(TOPIC_DOWNLINK_FRAME, TOPIC_UPLINK_SDU_REQUEST);
  }

  /** A boolean in any of the four cookie slots of a state report fails
      get<uint64_t>, so the report is no message. */
  lemma BooleanStateCookieIsNothing(j: Json, payload: seq<byte>, key: string, b: bool)
    requires key == "cookie_in_wait" || key == "cookie_in_progress" || key == "cookie_sent" || key == "cookie_dropped"
    requires Find(j, key) == Some(JBool(b))
    ensures Classify(TOPIC_UPLINK_STATE, j, payload) == None
  {
    assert !StartsWith(TOPIC_UPLINK_STATE, TOPIC_UPLINK_SDU_REQUEST);
  }

  /** The report {"cookie_sent": true} is no message, not a done frame 1. */
  lemma TrueCookieSentIsNothing(payload: seq<byte>)
    ensures Classify(TOPIC_UPLINK_STATE, JObject(map["cookie_sent" := JBool(true)]), payload) == None
  {
    BooleanStateCookieIsNothing(JObject(map["cookie_sent" := JBool(true)]), payload, "cookie_sent", true);
  }

  /** A boolean request cookie fails get<payload_cookie_t>, so the request is
      no message. */
  lemma BooleanRequestCookieIsNothing(topic: string, j: Json, payload: seq<byte>, b: bool)
    requires Find(j, "cookie") == Some(JBool(b))
    ensures Classify(topic, j, payload).None? || !Classify(topic, j, payload).value.SduUplinkRequest?
  {
  }

  /** Topics other than the three subscribed kinds are no message. */
  lemma UnknownTopicIsNothing(topic: string, j: Json, payload: seq<byte>)
    requires !StartsWith(topic, TOPIC_UPLINK_SDU_REQUEST)
    requires topic != TOPIC_DOWNLINK_FRAME && topic != TOPIC_UPLINK_STATE
    ensures Classify(topic, j, payload) == None
  {
  }

  // ---------------------------------------------------------------------
  // Reading one multipart message off the subscriber socket
  // ---------------------------------------------------------------------

  /** One received message part and whether more parts of its message follow. */
  datatype InPart = InPart(data: seq<byte>, more: bool)

  /** A queue of received parts as ZeroMQ delivers them: whole messages only,
      so the last part of the queue ends its message. */
  predicate WholeMessages(parts: seq<InPart>) {
    parts == [] || !parts[|parts| - 1].more
  }

  /** One past the index of the first part at or after i that ends a message. */
  function MessageEnd(parts: seq<InPart>, i: nat): (e: nat)
    requires i < |parts| && WholeMessages(parts)
    ensures i < e <= |parts| && !parts[e - 1].more
    ensures forall k :: i <= k < e - 1 ==> parts[k].more
    decreases |parts| - i
  {
    if !parts[i].more then i + 1 else MessageEnd(parts, i + 1)
  }

  /** What recv_message returns: an exception, nullptr, or a message. */
  datatype RecvOutcome = Raised | NoMessage | Received(message: InputMessage)

  /** The outcome of recv_message and how many parts it consumed. */
  datatype Reception = Reception(outcome: RecvOutcome, consumed: nat)

  function BytesToString(b: seq<byte>): (s: string)
    ensures |s| == |b|
  {
    seq(|b|, i requires 0 <= i < |b| => b[i] as char)
  }

  /** recv_message on a non-empty queue of whole messages, with parse standing
      for json::parse (None: it throws). An empty topic or empty metadata part
      returns nothing at once; a topic without a following part and
      unparsable metadata raise; otherwise the payload is the third part if
      there is one, and every part up to the end of the message is consumed. */
  function Receive(parts: seq<InPart>, parse: seq<byte> -> Option<Json>): (r: Reception)
    requires parts != [] && WholeMessages(parts)
    ensures 1 <= r.consumed <= |parts|
    // An empty topic part: nullptr after one part.
    ensures |parts[0].data| == 0 ==> r == Reception(NoMessage, 1)
    // A topic with no part after it: the metadata read throws.
    ensures |parts[0].data| != 0 && !parts[0].more ==> r == Reception(Raised, 1)
    // Empty metadata: nullptr after two parts, the rest left unread.
    ensures |parts[0].data| != 0 && parts[0].more && |parts[1].data| == 0 ==> r == Reception(NoMessage, 2)
    // Metadata json::parse rejects: it throws after two parts.
    ensures |parts[0].data| != 0 && parts[0].more && |parts[1].data| != 0 && parse(parts[1].data).None?
      ==> r == Reception(Raised, 2)
    // Nothing else raises.
    ensures r.outcome.Raised? <==>
      (|parts[0].data| != 0 && (!parts[0].more || (|parts[1].data| != 0 && parse(parts[1].data).None?)))
  {
    var topic := parts[0];
    if |topic.data| == 0 then Reception(NoMessage, 1)
    else if !topic.more then Reception(Raised, 1)
    else
      var metadata := parts[1];
      if |metadata.data| == 0 then Reception(NoMessage, 2)
      else match parse(metadata.data)
        case None => Reception(Raised, 2)
        case Some(j) =>
          var payload := if metadata.more then parts[2].data else [];
          var consumed := if metadata.more then MessageEnd(parts, 2) else 2;
          var outcome := match Classify(BytesToString(topic.data), j, payload)
            case Some(m) => Received(m)
            case None => NoMessage;
          Reception(outcome, consumed)
  }

  /** A message is consumed whole, extra parts and all, unless its topic or
      metadata part is empty (then only that far) or it raises. */
  lemma ReceiveConsumesMessage(parts: seq<InPart>, parse: seq<byte> -> Option<Json>)
    requires parts != [] && WholeMessages(parts)
    ensures var r := Receive(parts, parse);
      (r.outcome.Received? ==> r.consumed == MessageEnd(parts, 0)) &&
      (|parts[0].data| == 0 ==> r == Reception(NoMessage, 1)) &&
      (r.outcome.Raised? ==> r.consumed <= 2) &&
      (r.consumed < MessageEnd(parts, 0) ==> !r.outcome.Received?)
  {
    var r := Receive(parts, parse);
    if |parts[0].data| != 0 && parts[0].more {
      assert MessageEnd(parts, 0) == MessageEnd(parts, 1);
      if parts[1].more {
        assert MessageEnd(parts, 1) == MessageEnd(parts, 2);
      }
    }
  }

  function StringToBytes(s: string): (b: seq<byte>)
    requires forall i :: 0 <= i < |s| ==> s[i] as int < 0x100
    ensures BytesToString(b) == s
  {
    seq(|s|, i requires 0 <= i < |s| => s[i] as int)
  }

  /** A three-part message whose metadata parses is read as its topic and
      metadata classify it, with the third part as payload. */
  lemma ReceiveThreeParts(topic: seq<byte>, metadata: seq<byte>, payload: seq<byte>, rest: seq<InPart>,
                          parse: seq<byte> -> Option<Json>, j: Json)
    requires topic != [] && metadata != [] && parse(metadata) == Some(j) && WholeMessages(rest)
    ensures var r := Receive([InPart(topic, true), InPart(metadata, true), InPart(payload, false)] + rest, parse);
      r.consumed == 3 &&
      r.outcome == match Classify(BytesToString(topic), j, payload) case Some(m) => Received(m) case None => NoMessage
  {
    var parts := [InPart(topic, true), InPart(metadata, true), InPart(payload, false)] + rest;
    assert parts[2] == InPart(payload, false);
  }

  // ---------------------------------------------------------------------
  // The wire form of the outbound messages
  // ---------------------------------------------------------------------

  /** What a published part holds: topic text, JSON metadata (as the value
      json::dump writes out) or payload bytes. */
  datatype Content = Text(text: string) | Meta(json: Json) | Bytes(bytes: seq<byte>)

  /** A published part and whether it was sent with sndmore. */
  datatype OutPart = OutPart(content: Content, more: bool)

  function ChannelFields(id: ChannelId): map<string, Json> {
    map["sc_id" := JNumber(id.sc), "vchannel_id" := JNumber(id.vc), "map_id" := JNumber(id.mapId)]
  }

  function FlagsJson(names: seq<string>): (j: Json)
    ensures j.JArray? && |j.items| == |names|
    ensures forall i :: 0 <= i < |names| ==> j.items[i] == JString(names[i])
  {
    JArray(seq(|names|, i requires 0 <= i < |names| => JString(names[i])))
  }

  function DownlinkSduMetadata(id: ChannelId, qos: Qos, flags: Flags): Json {
    JObject(ChannelFields(id)["qos" := JString(QosToString(qos))]["flags" := FlagsJson(FlagNames(flags))])
  }

  function PartCookieJson(c: PartCookie): Json {
    JObject(map["cookie" := JNumber(c.cookie), "part_no" := JNumber(c.partNo), "is_final_part" := JBool(c.final)])
  }

  function UplinkEventMetadata(id: ChannelId, c: PartCookie, kind: EventKind, comment: string): Json {
    JObject(ChannelFields(id)["cookie" := PartCookieJson(c)]["event" := JString(EventKindName(kind))]
      ["comment" := JString(comment)])
  }

  function RadioFrameMetadata(cookie: uint64): Json {
    JObject(map["cookie" := JNumber(cookie)])
  }

  /** The parts send_message publishes for each outbound message: topic,
      metadata and (except for an uplink event) the data. */
  function Encode(m: OutputMessage): (parts: seq<OutPart>)
    ensures |parts| == if m.SduUplinkEvent? then 2 else 3
    ensures !parts[|parts| - 1].more && forall i :: 0 <= i < |parts| - 1 ==> parts[i].more
  {
    match m
    case SduDownlink(id, qos, flags, data) =>
      [OutPart(Text(ChannelIdToTopic(TOPIC_DOWNLINK_SDU, id)), true),
       OutPart(Meta(DownlinkSduMetadata(id, qos, flags)), true),
       OutPart(Bytes(data), false)]
    case SduUplinkEvent(id, c, kind, comment) =>
      [OutPart(Text(ChannelIdToTopic(TOPIC_UPLINK_SDU_EVENT, id)), true),
       OutPart(Meta(UplinkEventMetadata(id, c, kind, comment)), false)]
    case RadioUplinkFrame(cookie, data) =>
      [OutPart(Text(TOPIC_UPLINK_FRAME), true),
       OutPart(Meta(RadioFrameMetadata(cookie)), true),
       OutPart(Bytes(data), false)]
  }

  /** The parts of several messages, one after the other. */
  function EncodeAll(ms: seq<OutputMessage>): seq<OutPart> {
    if ms == [] then [] else EncodeAll(ms[..|ms| - 1]) + Encode(ms[|ms| - 1])
  }

  lemma EncodeAllAppend(ms: seq<OutputMessage>, m: OutputMessage)
    ensures EncodeAll(ms + [m]) == EncodeAll(ms) + Encode(m)
  {
    assert (ms + [m])[..|ms|] == ms;
  }

  // ---------------------------------------------------------------------
  // How a bus client reads the outbound messages back
  // ---------------------------------------------------------------------

  function ChannelIdOf(j: Json): Option<ChannelId> {
    var sc := GetOrDie(j, "sc_id", GetInt);
    var vc := GetOrDie(j, "vchannel_id", GetInt);
    var mapId := GetOrDie(j, "map_id", GetInt);
    if sc.Success? && vc.Success? && mapId.Success? then Some(ChannelId(sc.value, vc.value, mapId.value)) else None
  }

  /** The flags a JSON list of flag names stands for; None if an item is not a
      flag name. */
  function FlagsOfJson(items: seq<Json>): Option<seq<FlagBit>> {
    if items == [] then Some([])
    else
      var last := items[|items| - 1];
      var b := if last.JString? then FlagOfName(last.s) else None;
      match FlagsOfJson(items[..|items| - 1])
      case None => None
      case Some(rest) => if b.Some? then Some(rest + [b.value]) else None
  }

  lemma {:induction false} FlagsOfJsonNames(bits: seq<FlagBit>)
    ensures FlagsOfJson(FlagsJson(NamesOf(bits)).items) == Some(bits)
  {
    if bits != [] {
      var n := |bits|;
      var init := bits[..n - 1];
      var last := bits[n - 1];
      assert bits == init + [last];
      var items := FlagsJson(NamesOf(bits)).items;
      assert items[..n - 1] == FlagsJson(NamesOf(init)).items;
      assert items[n - 1] == JString(FlagName(last));
      FlagsOfJsonNames(init);
      FlagOfNameOfFlag(last);
    }
  }

  function PartCookieOf(j: Json): Option<PartCookie> {
    var c := GetOrDie(j, "cookie", GetUint64);
    var n := GetOrDie(j, "part_no", GetUint64);
    var f := GetOrDie(j, "is_final_part", GetBool);
    if c.Success? && n.Success? && f.Success? then Some(PartCookie(c.value, n.value, f.value)) else None
  }

  /** A subscriber's reading of one published message. */
  function Decode(parts: seq<OutPart>): Option<OutputMessage> {
    if |parts| < 2 || !parts[0].content.Text? || !parts[1].content.Meta? then None
    else
      var topic := parts[0].content.text;
      var j := parts[1].content.json;
      if |parts| == 2 && StartsWith(topic, TOPIC_UPLINK_SDU_EVENT + ".") then
        var id := ChannelIdOf(j);
        var c := match Find(j, "cookie") case Some(v) => PartCookieOf(v) case None => None;
        var kind := match GetOrDie(j, "event", GetString)
          case Success(s) => EventKindFromName(s) case Failure(_) => None;
        var comment := GetOrDie(j, "comment", GetString);
        if id.Some? && c.Some? && kind.Some? && comment.Success? then
          Some(SduUplinkEvent(id.value, c.value, kind.value, comment.value))
        else None
      else if |parts| == 3 && parts[2].content.Bytes? && StartsWith(topic, TOPIC_DOWNLINK_SDU + ".") then
        var id := ChannelIdOf(j);
        var qos := match GetOrDie(j, "qos", GetString)
          case Success(s) => QosFromString(s) case Failure(e) => Failure(e);
        var bits := match Find(j, "flags")
          case Some(JArray(items)) => FlagsOfJson(items) case _ => None;
        if id.Some? && qos.Success? && bits.Some? then
          Some(SduDownlink(id.value, qos.value, FlagsOf(bits.value), parts[2].content.bytes))
        else None
      else if |parts| == 3 && parts[2].content.Bytes? && topic == TOPIC_UPLINK_FRAME then
        match GetOrDie(j, "cookie", GetUint64)
        case Success(c) => Some(RadioUplinkFrame(c, parts[2].content.bytes))
        case Failure(_) => None
      else None
  }

  /** An object holding a channel's three id fields reads back as that channel. */
  lemma ChannelIdOfFields(id: ChannelId, rest: map<string, Json>)
    requires "sc_id" !in rest && "vchannel_id" !in rest && "map_id" !in rest
    ensures ChannelIdOf(JObject(ChannelFields(id) + rest)) == Some(id)
  {
    var f := ChannelFields(id) + rest;
    assert f["sc_id"] == JNumber(id.sc);
    assert f["vchannel_id"] == JNumber(id.vc);
    assert f["map_id"] == JNumber(id.mapId);
  }

  lemma DownlinkSduMetadataFields(id: ChannelId, qos: Qos, flags: Flags)
    ensures var j := DownlinkSduMetadata(id, qos, flags);
      ChannelIdOf(j) == Some(id) &&
      GetOrDie(j, "qos", GetString) == Success(QosToString(qos)) &&
      Find(j, "flags") == Some(FlagsJson(FlagNames(flags)))
  {
    var names := FlagNames(flags);
    var rest := map["qos" := JString(QosToString(qos)), "flags" := FlagsJson(names)];
    assert ChannelFields(id)["qos" := JString(QosToString(qos))]["flags" := FlagsJson(names)]
      == ChannelFields(id) + rest;
    ChannelIdOfFields(id, rest);
    var j := DownlinkSduMetadata(id, qos, flags);
    assert j.fields["qos"] == JString(QosToString(qos));
    assert j.fields["flags"] == FlagsJson(names);
  }

  /** The names published for a flag word read back as its six known bits. */
  lemma FlagNamesDecode(flags: Flags)
    ensures FlagsOfJson(FlagsJson(FlagNames(flags)).items) == Some(SetBits(flags))
    ensures FlagsOf(SetBits(flags)) == flags & 63
  {
    FlagsOfJsonNames(SetBits(flags));
    FlagsRoundTrip(flags);
  }

  /** Decode's downlink branch on any parts with the fields it reads. */
  lemma DecodeDownlinkParts(topic: string, j: Json, data: seq<byte>, id: ChannelId, qos: Qos, bits: seq<FlagBit>)
    requires StartsWith(topic, TOPIC_DOWNLINK_SDU + ".")
    requires ChannelIdOf(j) == Some(id)
    requires GetOrDie(j, "qos", GetString) == Success(QosToString(qos))
    requires Find(j, "flags").Some? && Find(j, "flags").value.JArray?
    requires FlagsOfJson(Find(j, "flags").value.items) == Some(bits)
    ensures Decode([OutPart(Text(topic), true), OutPart(Meta(j), true), OutPart(Bytes(data), false)])
      == Some(SduDownlink(id, qos, FlagsOf(bits), data))
  {
    QosRoundTrip(qos);
  }

  lemma DownlinkSduDecode(id: ChannelId, qos: Qos, flags: Flags, data: seq<byte>)
    ensures Decode(Encode(SduDownlink(id, qos, flags, data))) == Some(SduDownlink(id, qos, flags & 63, data))
  {
    TopicStartsWith(TOPIC_DOWNLINK_SDU, id);
    DownlinkSduMetadataFields(id, qos, flags);
    FlagNamesDecode(flags);
    DecodeDownlinkParts(ChannelIdToTopic(TOPIC_DOWNLINK_SDU, id), DownlinkSduMetadata(id, qos, flags), data,
      id, qos, SetBits(flags));
  }

  lemma UplinkEventMetadataFields(id: ChannelId, c: PartCookie, kind: EventKind, comment: string)
    ensures var j := UplinkEventMetadata(id, c, kind, comment);
      ChannelIdOf(j) == Some(id) &&
      Find(j, "cookie") == Some(PartCookieJson(c)) &&
      GetOrDie(j, "event", GetString) == Success(EventKindName(kind)) &&
      GetOrDie(j, "comment", GetString) == Success(comment)
  {
    var rest := map["cookie" := PartCookieJson(c), "event" := JString(EventKindName(kind)),
      "comment" := JString(comment)];
    assert ChannelFields(id)["cookie" := PartCookieJson(c)]["event" := JString(EventKindName(kind))]
      ["comment" := JString(comment)] == ChannelFields(id) + rest;
    ChannelIdOfFields(id, rest);
    var j := UplinkEventMetadata(id, c, kind, comment);
    assert j.fields["cookie"] == PartCookieJson(c);
    assert j.fields["event"] == JString(EventKindName(kind));
    assert j.fields["comment"] == JString(comment);
  }

  lemma PartCookieDecode(c: PartCookie)
    ensures PartCookieOf(PartCookieJson(c)) == Some(c)
  {
    var cj := PartCookieJson(c);
    assert cj.fields["cookie"] == JNumber(c.cookie);
    assert cj.fields["part_no"] == JNumber(c.partNo);
    assert cj.fields["is_final_part"] == JBool(c.final);
  }

  /** Decode's uplink event branch on any two parts with the fields it reads. */
  lemma DecodeEventParts(topic: string, j: Json, id: ChannelId, c: PartCookie, kind: EventKind, comment: string)
    requires StartsWith(topic, TOPIC_UPLINK_SDU_EVENT + ".")
    requires ChannelIdOf(j) == Some(id)
    requires Find(j, "cookie").Some? && PartCookieOf(Find(j, "cookie").value) == Some(c)
    requires GetOrDie(j, "event", GetString) == Success(EventKindName(kind))
    requires GetOrDie(j, "comment", GetString) == Success(comment)
    ensures Decode([OutPart(Text(topic), true), OutPart(Meta(j), false)])
      == Some(SduUplinkEvent(id, c, kind, comment))
  {
    EventKindNamesDistinct(kind, kind);
  }

  lemma UplinkEventDecode(id: ChannelId, c: PartCookie, kind: EventKind, comment: string)
    ensures Decode(Encode(SduUplinkEvent(id, c, kind, comment))) == Some(SduUplinkEvent(id, c, kind, comment))
  {
    TopicStartsWith(TOPIC_UPLINK_SDU_EVENT, id);
    UplinkEventMetadataFields(id, c, kind, comment);
    PartCookieDecode(c);
    DecodeEventParts(ChannelIdToTopic(TOPIC_UPLINK_SDU_EVENT, id), UplinkEventMetadata(id, c, kind, comment),
      id, c, kind, comment);
  }

  lemma RadioUplinkFrameDecode(cookie: uint64, data: seq<byte>)
    ensures Decode(Encode(RadioUplinkFrame(cookie, data))) == Some(RadioUplinkFrame(cookie, data))
  {
    assert TOPIC_UPLINK_FRAME[0] != (TOPIC_DOWNLINK_SDU + ".")[0];
    assert !StartsWith(TOPIC_UPLINK_FRAME, TOPIC_DOWNLINK_SDU + ".");
    assert RadioFrameMetadata(cookie).fields["cookie"] == JNumber(cookie);
  }

  /** Every outbound message is read back by a subscriber as sent, except that
      flag bits outside the six known ones have no name and are lost. The topic
      suffix names the message's channel. */
  lemma EncodeDecode(m: OutputMessage)
    ensures Decode(Encode(m)) == Some(if m.SduDownlink? then m.(flags := m.flags & 63) else m)
    ensures m.SduUplinkEvent? || m.SduDownlink? ==>
      ChannelIdFromTopic(Encode(m)[0].content.text) == Success(m.gmapid)
  {
    match m
    case SduDownlink(id, qos, flags, data) =>
      DownlinkSduDecode(id, qos, flags, data);
      TopicRoundTrip(TOPIC_DOWNLINK_SDU, id);
    case SduUplinkEvent(id, c, kind, comment) =>
      UplinkEventDecode(id, c, kind, comment);
      TopicRoundTrip(TOPIC_UPLINK_SDU_EVENT, id);
    case RadioUplinkFrame(cookie, data) =>
      RadioUplinkFrameDecode(cookie, data);
  }
}
