/** SDP lines as text (src/sdp.cpp, src/sdp_private.h): the parsers and printers of the
    line table as functions on strings, and what a line comes back as. */
module SdpText {
  import opened Tokens
  import opened SipTables
  import opened HeaderText

  // ---------------------------------------------------------------------- the tables

  type MediaType = k: nat | k < 5

  function MediaName(k: MediaType): string {
    match k
    case 0 => "audio"
    case 1 => "video"
    case 2 => "text"
    case 3 => "application"
    case _ => "message"
  }

  type AttributeType = k: nat | k < 18

  function AttributeName(k: AttributeType): string {
    match k
    case 0 => "cat"
    case 1 => "keywds"
    case 2 => "tool"
    case 3 => "ptime"
    case 4 => "maxptime"
    case 5 => "rtpmap"
    case 6 => "recvonly"
    case 7 => "sendrecv"
    case 8 => "sendonly"
    case 9 => "inactive"
    case 10 => "orient"
    case 11 => "type"
    case 12 => "charset"
    case 13 => "sdplang"
    case 14 => "lang"
    case 15 => "framerate"
    case 16 => "quality"
    case _ => "fmtp"
  }

  const RTPMAP: AttributeType := 5
  const SENDONLY: AttributeType := 8
  const FMTP: AttributeType := 17

  /** The place of a name in a table, as the loops over the tables find it. */
  function MediaPlace(name: string, i: nat): Option<MediaType>
    requires i <= 5
    decreases 5 - i
  {
    if i == 5 then None else if MediaName(i) == name then Some(i) else MediaPlace(name, i + 1)
  }

  function AttributePlace(name: string, i: nat): Option<AttributeType>
    requires i <= 18
    decreases 18 - i
  {
    if i == 18 then None else if AttributeName(i) == name then Some(i) else AttributePlace(name, i + 1)
  }

  /** sipster_sdp_media_type_decode. */
  method DecodeMedia(name: string) returns (k: Option<MediaType>)
    ensures k == MediaPlace(name, 0)
    ensures k.Some? ==> MediaName(k.value) == name && forall j: MediaType :: j < k.value ==> MediaName(j) != name
    ensures k == None ==> forall j: MediaType :: MediaName(j) != name
  {
    hide MediaName;
    var i := 0;
    while i < 5
      invariant i <= 5 && MediaPlace(name, 0) == MediaPlace(name, i)
      invariant forall j: MediaType :: j < i ==> MediaName(j) != name
    {
      if name == MediaName(i) {
        return Some(i);
      }
      i := i + 1;
    }
    k := None;
  }

  method FindAttribute(name: string) returns (k: Option<AttributeType>)
    ensures k == AttributePlace(name, 0)
    ensures k.Some? ==> AttributeName(k.value) == name && forall j: AttributeType :: j < k.value ==> AttributeName(j) != name
    ensures k == None ==> forall j: AttributeType :: AttributeName(j) != name
  {
    hide AttributeName;
    var i := 0;
    while i < 18
      invariant i <= 18 && AttributePlace(name, 0) == AttributePlace(name, i)
      invariant forall j: AttributeType :: j < i ==> AttributeName(j) != name
    {
      if name == AttributeName(i) {
        return Some(i);
      }
      i := i + 1;
    }
    k := None;
  }

  lemma MediaNamesDiffer(i: MediaType, k: MediaType)
    requires MediaName(i) == MediaName(k)
    ensures i == k
  {
  }

  lemma AttributeNamesDiffer(i: AttributeType, k: AttributeType)
    requires AttributeName(i) == AttributeName(k)
    ensures i == k
  {
  }

  lemma {:induction false} MediaFound(k: MediaType, i: nat)
    requires i <= k
    ensures MediaPlace(MediaName(k), i) == Some(k)
    decreases k - i
  {
    hide MediaName;
    if MediaName(i) == MediaName(k) { MediaNamesDiffer(i, k); } else { MediaFound(k, i + 1); }
  }

  lemma {:induction false} AttributeFound(k: AttributeType, i: nat)
    requires i <= k
    ensures AttributePlace(AttributeName(k), i) == Some(k)
    decreases k - i
  {
    hide AttributeName;
    if AttributeName(i) == AttributeName(k) { AttributeNamesDiffer(i, k); } else { AttributeFound(k, i + 1); }
  }

  /** Letters only. */
  predicate Lower(s: string) {
    s != "" && forall i :: 0 <= i < |s| ==> 'a' <= s[i] <= 'z'
  }

  lemma MediaLower(k: MediaType)
    ensures Lower(MediaName(k)) && |MediaName(k)| <= 11
  {
    match k {
      case 0 => assert Lower(MediaName(0));
      case 1 => assert Lower(MediaName(1));
      case 2 => assert Lower(MediaName(2));
      case 3 => assert Lower(MediaName(3));
      case _ => assert Lower(MediaName(4));
    }
  }

  lemma AttributeLower(k: AttributeType)
    ensures Lower(AttributeName(k)) && |AttributeName(k)| <= 9
  {
    hide AttributeName, Lower;
    if k < 9 { FirstNamesLower(k); } else { LastNamesLower(k); }
  }

  lemma FirstNamesLower(k: AttributeType)
    requires k < 9
    ensures Lower(AttributeName(k)) && |AttributeName(k)| <= 9
  {
    match k {
      case 0 => assert Lower(AttributeName(0));
      case 1 => assert Lower(AttributeName(1));
      case 2 => assert Lower(AttributeName(2));
      case 3 => assert Lower(AttributeName(3));
      case 4 => assert Lower(AttributeName(4));
      case 5 => assert Lower(AttributeName(5));
      case 6 => assert Lower(AttributeName(6));
      case 7 => assert Lower(AttributeName(7));
      case _ => assert Lower(AttributeName(8));
    }
  }

  lemma LastNamesLower(k: AttributeType)
    requires k >= 9
    ensures Lower(AttributeName(k)) && |AttributeName(k)| <= 9
  {
    match k {
      case 9 => assert Lower(AttributeName(9));
      case 10 => assert Lower(AttributeName(10));
      case 11 => assert Lower(AttributeName(11));
      case 12 => assert Lower(AttributeName(12));
      case 13 => assert Lower(AttributeName(13));
      case 14 => assert Lower(AttributeName(14));
      case 15 => assert Lower(AttributeName(15));
      case 16 => assert Lower(AttributeName(16));
      case _ => assert Lower(AttributeName(17));
    }
  }

  lemma LowerClean(s: string)
    requires Lower(s)
    ensures Free(s, ":") && Free(s, " ") && Free(s, CRLF) && !IsSpace(s[0])
  {
  }

  // --------------------------------------------------------------------- the records

  datatype Origin = Origin(username: string, sessionId: nat, sessionVersion: nat, nettype: string, addrtype: string, address: string)

  /** The time to live is one byte. */
  datatype Connection = Connection(nettype: string, addrtype: string, address: string, ttl: nat)

  datatype Timing = Timing(start: nat, stop: nat)

  /** The type is a place in the table, `None` for a name that is not in it. */
  datatype MediaDesc = MediaDesc(mediaType: Option<MediaType>, port: nat, portCount: nat, protocol: string, pts: seq<nat>)

  datatype Attribute =
    | Plain(kind: AttributeType)
    | Rtpmap(pt: nat, encoding: string, clock: nat, channels: nat, params: string)
    | Fmtp(pt: nat, fmtpParams: string)

  /** A line. The five string lines keep their letter; an attribute that is not known is kept empty. */
  datatype Line =
    | VersionLine(version: nat)
    | OriginLine(origin: Origin)
    | StringLine(letter: char, data: string)
    | ConnectionLine(connection: Connection)
    | TimingLine(timing: Timing)
    | AttributeLine(attribute: Option<Attribute>)
    | MediaLine(media: MediaDesc)

  // --------------------------------------------------------------------- parsing lines

  function ParseOrigin(input: string): Origin {
    var a := Skip(input, " ");
    var b := Skip(a, " ");
    var c := Skip(b, " ");
    var d := Skip(c, " ");
    Origin(Tok(input, " "), Atoi(Tok(a, " ")) % TWO64, Atoi(Tok(b, " ")) % TWO64, Tok(c, " "), Tok(d, " "), Skip(d, " "))
  }

  function ParseConnection(input: string): Connection {
    var a := Skip(input, " ");
    var rest := Skip(a, " ");
    Connection(Tok(input, " "), Tok(a, " "), Tok(rest, "/"), Atoi(Tok(Skip(rest, "/"), "/")) % 256)
  }

  function ParseTiming(input: string): Timing {
    Timing(Atoi(Tok(input, " ")) % TWO64, Atoi(Skip(input, " ")) % TWO64)
  }

  function Rtrim(s: string): (t: string)
    ensures (s != "" ==> !IsSpace(s[|s| - 1])) ==> t == s
  {
    if s != "" && IsSpace(s[|s| - 1]) then Rtrim(s[..|s| - 1]) else s
  }

  /** The payload types, each one byte. */
  function ParsePts(r: string): seq<nat>
    decreases |r|
  {
    var t := Tok(r, " ");
    if t == "" then [] else [Atoi(t) % 256] + ParsePts(Skip(r, " "))
  }

  function ParseMedia(input: string): MediaDesc {
    var a := Skip(input, " ");
    var b := Skip(a, " ");
    var ports := Tok(a, " ");
    var count := Tok(Skip(ports, "/"), "/");
    MediaDesc(MediaPlace(Tok(input, " "), 0), Atoi(Tok(ports, "/")) % 65536,
              if count == "" then 0 else Atoi(count) % 65536,
              Tok(b, " "), ParsePts(Ltrim(Rtrim(Skip(b, " ")))))
  }

  function ParseRtpmap(input: string): Attribute {
    var data := Skip(input, " ");
    var rest := Skip(data, "/");
    var params := Skip(rest, "/");
    Rtpmap(Atoi(Tok(input, " ")) % 65536, Tok(data, "/"), Atoi(Tok(rest, "/")) % TWO32,
           if params == "" then 0 else Atoi(params) % 65536, params)
  }

  /** The parameters of an fmtp are read from the start of the value, its payload type included. */
  function ParseFmtp(input: string): Attribute {
    Fmtp(Atoi(Tok(input, " ")) % 65536, input)
  }

  function ParseAttribute(input: string): Option<Attribute> {
    var k := AttributePlace(Tok(input, ":"), 0);
    var rest := Ltrim(Skip(input, ":"));
    if k == None then None
    else if k.value == RTPMAP then Some(ParseRtpmap(rest))
    else if k.value == FMTP then Some(ParseFmtp(rest))
    else Some(Plain(k.value))
  }

  /** The line table: `None` for the letters that have no parser and for all others. */
  function ParseLine(line: string): Option<Line> {
    var name, rest := Tok(line, "="), Ltrim(Skip(line, "="));
    if name == "v" then Some(VersionLine(Atoi(rest) % TWO32))
    else if name == "o" then Some(OriginLine(ParseOrigin(rest)))
    else if name in ["s", "i", "u", "e", "p"] then Some(StringLine(name[0], Cut(rest, 399)))
    else if name == "c" then Some(ConnectionLine(ParseConnection(rest)))
    else if name == "t" then Some(TimingLine(ParseTiming(rest)))
    else if name == "a" then Some(AttributeLine(ParseAttribute(rest)))
    else if name == "m" then Some(MediaLine(ParseMedia(rest)))
    else None
  }

  // --------------------------------------------------------------------- printing lines

  function PrintOrigin(o: Origin): string {
    Cut("o=" + o.username + " " + Digits(o.sessionId) + " " + Digits(o.sessionVersion) + " " + o.nettype + " " + o.addrtype + " " + o.address, 231)
  }

  function PrintConnection(c: Connection): string {
    Cut("c=" + c.nettype + " " + c.addrtype + " " + c.address + "/" + Digits(if c.ttl > 1 then c.ttl else 127), 63)
  }

  /** The types after the first have room for a space and two digits. */
  function PtsText(pts: seq<nat>): string {
    if pts == [] then "" else if |pts| == 1 then Cut(Digits(pts[0]), 3)
    else PtsText(pts[..|pts| - 1]) + Cut(" " + Digits(pts[|pts| - 1]), 3)
  }

  function PortText(m: MediaDesc): string {
    Cut(if m.portCount > 1 then Digits(m.port) + "/" + Digits(m.portCount) else Digits(m.port), 9)
  }

  function PrintMedia(m: MediaDesc): string
    requires m.mediaType.Some?
  {
    Cut("m=" + MediaName(m.mediaType.value) + " " + PortText(m) + " " + m.protocol + " " + PtsText(m.pts), 79)
  }

  predicate AttributeKnown(a: Attribute) {
    a.Plain? ==> a.kind != RTPMAP && a.kind != FMTP
  }

  function PrintAttribute(a: Attribute): string
    requires AttributeKnown(a)
  {
    match a
    case Plain(k) => Cut("a=" + AttributeName(k), if k == SENDONLY then 13 else 49)
    case Rtpmap(pt, encoding, clock, channels, params) =>
      if channels > 1 then Cut("a=rtpmap:" + Digits(pt) + " " + encoding + "/" + Digits(clock) + "/" + Digits(channels), 97)
      else Cut("a=rtpmap:" + Digits(pt) + " " + encoding + "/" + Digits(clock), 97)
    case Fmtp(pt, params) => Cut("a=fmtp:" + Digits(pt) + " " + params, 97)
  }

  predicate Known(l: Line) {
    match l
    case MediaLine(m) => m.mediaType.Some?
    case AttributeLine(a) => a.Some? && AttributeKnown(a.value)
    case StringLine(c, d) => c in "siuep"
    case VersionLine(n) => n < TWO32 / 2
    case _ => true
  }

  function PrintLine(l: Line): string
    requires Known(l)
  {
    match l
    case VersionLine(n) => Cut("v=" + Digits(n), 19)
    case OriginLine(o) => PrintOrigin(o)
    case StringLine(c, d) => Cut([c] + "=" + d, 327)
    case ConnectionLine(c) => PrintConnection(c)
    case TimingLine(t) => Cut("t=" + Digits(t.start) + " " + Digits(t.stop), 49)
    case AttributeLine(a) => PrintAttribute(a.value)
    case MediaLine(m) => PrintMedia(m)
  }

  // ------------------------------------------------------------------- normal form

  /** What a printed line comes back as: a time to live below 2 as 127, a single channel
      and a single port not at all. */
  function NormalAttribute(a: Attribute): Attribute {
    match a
    case Rtpmap(pt, encoding, clock, channels, params) =>
      if channels > 1 then Rtpmap(pt, encoding, clock, channels, Digits(channels)) else Rtpmap(pt, encoding, clock, 0, "")
    case _ => a
  }

  function NormalConnection(c: Connection): Connection {
    c.(ttl := if c.ttl > 1 then c.ttl else 127)
  }

  function NormalMedia(m: MediaDesc): MediaDesc {
    m.(portCount := if m.portCount > 1 then m.portCount else 0)
  }

  function NormalLine(l: Line): Line {
    match l
    case ConnectionLine(c) => ConnectionLine(NormalConnection(c))
    case AttributeLine(a) => if a.Some? then AttributeLine(Some(NormalAttribute(a.value))) else l
    case MediaLine(m) => MediaLine(NormalMedia(m))
    case _ => l
  }

  /** Not empty, and one word for a tokenizer that goes by spaces. */
  predicate Word(s: string) {
    s != "" && Free(s, " \r\n") && !IsSpace(s[0])
  }

  /** The fields are free of their own delimiters and within their buffers and widths, and
      the printed line is within its own. An fmtp is left out, whose parser does not undo
      its printer. */
  predicate Fair(l: Line) {
    && Known(l)
    && match l
       case VersionLine(n) => true
       case OriginLine(o) =>
         && Word(o.username) && o.sessionId < TWO64 / 2 && o.sessionVersion < TWO64 / 2
         && Free(o.nettype, " \r\n") && Free(o.addrtype, " \r\n") && Free(o.address, CRLF)
         && |o.username| < 150 && |o.nettype| < 3 && |o.addrtype| < 4 && |o.address| < 46 && |OriginText(o)| + 2 <= 231
       case StringLine(c, d) => TextOk(d) && |d| <= 325
       case ConnectionLine(c) =>
         && Word(c.nettype) && Free(c.addrtype, " \r\n") && Free(c.address, "/\r\n")
         && |c.nettype| <= 2 && |c.addrtype| <= 3 && |c.address| <= 45 && c.ttl < 256
       case TimingLine(t) => t.start < TWO64 / 2 && t.stop < TWO64 / 2
       case AttributeLine(a) => AttributeFair(a.value)
       case MediaLine(m) => MediaFair(m)
  }

  predicate AttributeFair(a: Attribute) {
    match a
    case Plain(k) => true
    case Rtpmap(pt, encoding, clock, channels, params) =>
      pt < 65536 && |encoding| <= 19 && Free(encoding, "/\r\n") && clock < TWO32 / 2 && channels < 65536
    case Fmtp(pt, params) => false
  }

  /** The buffers of the code: 20 payload types, 10 bytes of protocol and of port, a line of 80. */
  predicate MediaFair(m: MediaDesc)
    requires m.mediaType.Some?
  {
    && PortFair(m)
    && |m.protocol| <= 9 && Free(m.protocol, " \r\n")
    && (forall i :: 0 <= i < |m.pts| ==> m.pts[i] < if i == 0 then 256 else 100)
    && |m.pts| <= 20 && |MediaText(m)| + 2 <= 79
  }

  predicate PortFair(m: MediaDesc) {
    m.port < 65536 && m.portCount < 65536 && (m.portCount > 1 ==> |Digits(m.port)| + |Digits(m.portCount)| <= 8)
  }

  // ------------------------------------------------------------------ reading back

  lemma Clean(s: string)
    requires Free(s, " \r\n")
    ensures Free(s, " ") && Free(s, CRLF)
  {
    FreeOf(s, " \r\n", " ");
    FreeOf(s, " \r\n", CRLF);
  }

  lemma NumberClean(n: nat)
    ensures Free(Digits(n), " ") && Free(Digits(n), CRLF) && Free(Digits(n), "/") && Free(Digits(n), ":")
  {
    hide Digits;
  }

  /** A word, a space and the rest of a line. */
  lemma WordAt(a: string, b: string)
    requires Free(a, " ") && Free(a, CRLF) && Free(b, CRLF)
    ensures Tok(a + " " + b, " ") == a && Skip(a + " " + b, " ") == b && Free(a + " " + b, CRLF)
  {
    hide Tok, Skip, Free;
    TokAt(a, " ", b);
    SpaceClean();
    FreeJoined(a, " ", CRLF);
    FreeJoined(a + " ", b, CRLF);
  }

  function OriginText(o: Origin): string {
    o.username + " " + (Digits(o.sessionId) + " " + (Digits(o.sessionVersion) + " " + (o.nettype + " " + (o.addrtype + " " + o.address))))
  }

  lemma OriginReadBack(o: Origin)
    requires Fair(OriginLine(o))
    ensures var t := OriginText(o);
      PrintOrigin(o) == "o=" + t && ParseOrigin(t) == o && Free(t, CRLF) && !IsSpace(t[0])
  {
    hide Tok, Skip, Free, Digits, Atoi;
    Clean(o.username);
    Clean(o.nettype);
    Clean(o.addrtype);
    NumberClean(o.sessionId);
    NumberClean(o.sessionVersion);
    AtoiDigits(o.sessionId);
    AtoiDigits(o.sessionVersion);
    var e := o.addrtype + " " + o.address;
    WordAt(o.addrtype, o.address);
    var d := o.nettype + " " + e;
    WordAt(o.nettype, e);
    var c := Digits(o.sessionVersion) + " " + d;
    WordAt(Digits(o.sessionVersion), d);
    var b := Digits(o.sessionId) + " " + c;
    WordAt(Digits(o.sessionId), c);
    WordAt(o.username, b);
    assert "o=" + o.username + " " + Digits(o.sessionId) + " " + Digits(o.sessionVersion) + " " + o.nettype + " " + o.addrtype + " " + o.address
        == "o=" + (o.username + " " + b);
  }

  /** A field, a slash and the rest. */
  lemma FieldAt(a: string, b: string)
    requires Free(a, "/") && Free(a, CRLF) && Free(b, CRLF)
    ensures Tok(a + "/" + b, "/") == a && Skip(a + "/" + b, "/") == b && Free(a + "/" + b, CRLF)
  {
    hide Tok, Skip, Free;
    TokAt(a, "/", b);
    SlashClean();
    FreeJoined(a, "/", CRLF);
    FreeJoined(a + "/", b, CRLF);
  }

  lemma SlashClean()
    ensures Free("/", CRLF)
  {
  }

  lemma Field(s: string)
    requires Free(s, "/\r\n")
    ensures Free(s, "/") && Free(s, CRLF)
  {
    FreeOf(s, "/\r\n", "/");
    FreeOf(s, "/\r\n", CRLF);
  }

  lemma ConnectionReadBack(c: Connection)
    requires Fair(ConnectionLine(c))
    ensures var n := NormalConnection(c);
      var t := c.nettype + " " + (c.addrtype + " " + (c.address + "/" + Digits(n.ttl)));
      PrintConnection(c) == "c=" + t && ParseConnection(t) == n && Free(t, CRLF) && !IsSpace(t[0])
  {
    hide Tok, Skip, Free, Digits, Atoi;
    var ttl := NormalConnection(c).ttl;
    Clean(c.nettype);
    Clean(c.addrtype);
    Field(c.address);
    NumberClean(ttl);
    AtoiDigits(ttl);
    DigitsShort(ttl, 3) by { assert Power10(3) == 1000; }
    var rest := c.address + "/" + Digits(ttl);
    FieldAt(c.address, Digits(ttl));
    TokAll(Digits(ttl), "/");
    WordAt(c.addrtype, rest);
    WordAt(c.nettype, c.addrtype + " " + rest);
    assert "c=" + c.nettype + " " + c.addrtype + " " + c.address + "/" + Digits(ttl) == "c=" + (c.nettype + " " + (c.addrtype + " " + rest));
  }

  lemma TimingReadBack(t: Timing)
    requires Fair(TimingLine(t))
    ensures var r := Digits(t.start) + " " + Digits(t.stop);
      PrintLine(TimingLine(t)) == "t=" + r && ParseTiming(r) == t && Free(r, CRLF) && !IsSpace(r[0])
  {
    hide Tok, Skip, Free, Digits, Atoi;
    NumberClean(t.start);
    NumberClean(t.stop);
    AtoiDigits(t.start);
    AtoiDigits(t.stop);
    Powers();
    DigitsShort(t.start, 19);
    DigitsShort(t.stop, 19);
    WordAt(Digits(t.start), Digits(t.stop));
    assert "t=" + Digits(t.start) + " " + Digits(t.stop) == "t=" + (Digits(t.start) + " " + Digits(t.stop));
  }

  // ------------------------------------------------------------------- attributes

  /** The value of an attribute line, after its name. */
  function RtpmapText(pt: nat, encoding: string, clock: nat, channels: nat): string {
    Digits(pt) + " " + (encoding + "/" + if channels > 1 then Digits(clock) + "/" + Digits(channels) else Digits(clock))
  }

  lemma RtpmapReadBack(a: Attribute)
    requires a.Rtpmap? && AttributeFair(a)
    ensures var t := RtpmapText(a.pt, a.encoding, a.clock, a.channels);
      PrintAttribute(a) == "a=" + ("rtpmap:" + t) && ParseRtpmap(t) == NormalAttribute(a) && Free(t, CRLF) && !IsSpace(t[0])
  {
    hide Tok, Skip, Free, Digits, Atoi;
    Field(a.encoding);
    NumberClean(a.pt);
    NumberClean(a.clock);
    AtoiDigits(a.pt);
    AtoiDigits(a.clock);
    var rest := if a.channels > 1 then Digits(a.clock) + "/" + Digits(a.channels) else Digits(a.clock);
    ClockReadBack(a);
    FieldAt(a.encoding, rest);
    WordAt(Digits(a.pt), a.encoding + "/" + rest);
    RtpmapPrinted(a);
  }

  lemma ClockReadBack(a: Attribute)
    requires a.Rtpmap? && AttributeFair(a)
    ensures var rest := if a.channels > 1 then Digits(a.clock) + "/" + Digits(a.channels) else Digits(a.clock);
      && Tok(rest, "/") == Digits(a.clock) && Skip(rest, "/") == (if a.channels > 1 then Digits(a.channels) else "")
      && Free(rest, CRLF) && Digits(a.channels) != "" && Atoi(Digits(a.channels)) == a.channels
  {
    hide Tok, Skip, Free, Digits, Atoi;
    NumberClean(a.clock);
    NumberClean(a.channels);
    AtoiDigits(a.channels);
    DigitsFilled(a.channels);
    if a.channels > 1 {
      FieldAt(Digits(a.clock), Digits(a.channels));
    } else {
      TokAll(Digits(a.clock), "/");
    }
  }

  lemma RtpmapPrinted(a: Attribute)
    requires a.Rtpmap? && AttributeFair(a)
    ensures PrintAttribute(a) == "a=" + ("rtpmap:" + RtpmapText(a.pt, a.encoding, a.clock, a.channels))
  {
    hide Digits, Free;
    Powers();
    SmallPowers();
    DigitsShort(a.pt, 5);
    DigitsShort(a.clock, 10);
    DigitsShort(a.channels, 5);
    var p, c, n := Digits(a.pt), Digits(a.clock), Digits(a.channels);
    if a.channels > 1 {
      assert "a=rtpmap:" + p + " " + a.encoding + "/" + c + "/" + n == "a=" + ("rtpmap:" + (p + " " + (a.encoding + "/" + (c + "/" + n))));
    } else {
      assert "a=rtpmap:" + p + " " + a.encoding + "/" + c == "a=" + ("rtpmap:" + (p + " " + (a.encoding + "/" + c)));
    }
  }

  lemma SmallPowers()
    ensures Power10(5) == 100000 && Power10(3) == 1000 && Power10(2) == 100
  {
    assert Power10(2) == 100;
  }

  /** A name with nothing after it, and a name with a value. */
  lemma NameAt(name: string, value: string)
    requires Lower(name) && Free(value, CRLF) && (value != "" ==> !IsSpace(value[0]))
    ensures Tok(name, ":") == name && Skip(name, ":") == ""
    ensures Tok(name + ":" + value, ":") == name && Ltrim(Skip(name + ":" + value, ":")) == value
    ensures Free(name, CRLF) && Free(name + ":" + value, CRLF)
  {
    hide Tok, Skip, Free;
    LowerClean(name);
    TokAll(name, ":");
    TokAt(name, ":", value);
    OneColonClean();
    FreeJoined(name, ":", CRLF);
    FreeJoined(name + ":", value, CRLF);
  }

  lemma NothingClean()
    ensures Free("", CRLF)
  {
  }

  lemma OneColonClean()
    ensures Free(":", CRLF)
  {
  }

  function AttributeText(a: Attribute): string {
    match a
    case Plain(k) => AttributeName(k)
    case Rtpmap(pt, encoding, clock, channels, params) => "rtpmap" + ":" + RtpmapText(pt, encoding, clock, channels)
    case Fmtp(pt, params) => "fmtp:" + Digits(pt) + " " + params
  }

  lemma AttributeReadBack(a: Attribute)
    requires AttributeKnown(a) && AttributeFair(a)
    ensures var t := AttributeText(a);
      && PrintAttribute(a) == "a=" + t && ParseAttribute(t) == Some(NormalAttribute(a))
      && Free(t, CRLF) && !IsSpace(t[0])
  {
    hide Tok, Skip, Free, Ltrim, ParseRtpmap, RtpmapText, AttributeName, Lower, Digits;
    if a.Plain? {
      AttributeLower(a.kind);
      AttributeFound(a.kind, 0);
      LowerClean(AttributeName(a.kind));
      NothingClean();
      NameAt(AttributeName(a.kind), "");
    } else {
      RtpmapReadBack(a);
      var t := RtpmapText(a.pt, a.encoding, a.clock, a.channels);
      assert "rtpmap" == AttributeName(RTPMAP) by { RtpmapName(); }
      AttributeLower(RTPMAP);
      AttributeFound(RTPMAP, 0);
      LowerClean("rtpmap");
      NameAt("rtpmap", t);
      assert "rtpmap:" + t == "rtpmap" + ":" + t;
    }
  }

  /** An fmtp never comes back: its parser takes the payload type for a part of the parameters. */
  lemma FmtpGrows(pt: nat, params: string)
    requires pt < 65536 && Free(params, CRLF) && |params| <= 84
    ensures var t := "fmtp" + ":" + (Digits(pt) + " " + params);
      && PrintAttribute(Fmtp(pt, params)) == "a=" + t
      && ParseAttribute(t) == Some(Fmtp(pt, Digits(pt) + " " + params)) != Some(Fmtp(pt, params))
  {
    hide Tok, Skip, Free, Ltrim, AttributeName, Lower, Digits, Atoi;
    var t := Digits(pt) + " " + params;
    NumberClean(pt);
    AtoiDigits(pt);
    DigitsFilled(pt);
    SmallPowers();
    DigitsShort(pt, 5);
    WordAt(Digits(pt), params);
    assert "fmtp" == AttributeName(FMTP) by { FmtpName(); }
    AttributeLower(FMTP);
    AttributeFound(FMTP, 0);
    NameAt("fmtp", t);
    assert "a=fmtp:" + Digits(pt) + " " + params == "a=" + ("fmtp" + ":" + t);
    assert |t| > |params|;
  }

  lemma FmtpName()
    ensures AttributeName(FMTP) == "fmtp"
  {
  }

  lemma RtpmapName()
    ensures AttributeName(RTPMAP) == "rtpmap"
  {
  }

  // ------------------------------------------------------------------- media lines

  function PortsText(m: MediaDesc): string {
    if m.portCount > 1 then Digits(m.port) + "/" + Digits(m.portCount) else Digits(m.port)
  }

  lemma PortsReadBack(m: MediaDesc)
    requires PortFair(m)
    ensures PortText(m) == PortsText(m) && |PortsText(m)| <= 9
    ensures var t := PortsText(m); var count := Tok(Skip(t, "/"), "/");
      && Atoi(Tok(t, "/")) == m.port && Free(t, " ") && Free(t, CRLF)
      && (if m.portCount > 1 then count != "" && Atoi(count) == m.portCount else count == "")
  {
    hide Tok, Skip, Free, Digits, Atoi;
    NumberClean(m.port);
    NumberClean(m.portCount);
    AtoiDigits(m.port);
    AtoiDigits(m.portCount);
    SmallPowers();
    DigitsShort(m.port, 5);
    if m.portCount > 1 {
      FieldAt(Digits(m.port), Digits(m.portCount));
      TokAll(Digits(m.portCount), "/");
      SlashNoSpace();
      FreeJoined(Digits(m.port), "/", " ");
      FreeJoined(Digits(m.port) + "/", Digits(m.portCount), " ");
      assert Digits(m.portCount) != "" by { DigitsFilled(m.portCount); }
    } else {
      TokAll(Digits(m.port), "/");
      NoTok("/");
    }
  }

  lemma SlashNoSpace()
    ensures Free("/", " ")
  {
  }

  lemma DigitsFilled(n: nat)
    ensures Digits(n) != ""
  {
  }

  /** The payload types with a space between them. */
  function Joint(pts: seq<nat>): string {
    if pts == [] then "" else if |pts| == 1 then Digits(pts[0]) else Digits(pts[0]) + " " + Joint(pts[1..])
  }

  lemma {:induction false} JointEnd(pts: seq<nat>)
    requires |pts| > 1
    ensures Joint(pts) == Joint(pts[..|pts| - 1]) + " " + Digits(pts[|pts| - 1])
  {
    hide Digits;
    var front := pts[..|pts| - 1];
    if |pts| == 2 {
      assert pts[1..] == [pts[1]] && front == [pts[0]];
    } else {
      JointEnd(pts[1..]);
      assert pts[1..][..|pts| - 2] == front[1..];
      var a, b, c := Digits(pts[0]), Joint(front[1..]), Digits(pts[|pts| - 1]);
      assert a + " " + (b + " " + c) == (a + " " + b) + " " + c;
    }
  }

  /** The printer's concatenation, with nothing cut. */
  lemma {:induction false} PtsPrinted(pts: seq<nat>)
    requires forall i :: 0 <= i < |pts| ==> pts[i] < if i == 0 then 256 else 100
    ensures PtsText(pts) == Joint(pts) && |Joint(pts)| <= 3 * |pts|
  {
    hide Digits;
    SmallPowers();
    if |pts| == 1 {
      DigitsShort(pts[0], 3);
    } else if |pts| > 1 {
      var n := pts[|pts| - 1];
      PtsPrinted(pts[..|pts| - 1]);
      DigitsShort(n, 2);
      JointEnd(pts);
      var a := Joint(pts[..|pts| - 1]);
      assert a + " " + Digits(n) == a + (" " + Digits(n));
    }
  }

  lemma {:induction false} PtsReadBack(pts: seq<nat>)
    requires forall i :: 0 <= i < |pts| ==> pts[i] < 256
    ensures ParsePts(Joint(pts)) == pts && Free(Joint(pts), CRLF)
    ensures pts != [] ==> Joint(pts) != "" && !IsSpace(Joint(pts)[0]) && !IsSpace(Joint(pts)[|Joint(pts)| - 1])
  {
    hide Tok, Skip, Free, Digits, Atoi;
    if pts == [] {
      NoTok(" ");
      NothingClean();
    } else {
      NumberClean(pts[0]);
      AtoiDigits(pts[0]);
      DigitsFilled(pts[0]);
      if |pts| == 1 {
        TokAll(Digits(pts[0]), " ");
        NoTok(" ");
        assert ParsePts("") == [];
      } else {
        PtsReadBack(pts[1..]);
        WordAt(Digits(pts[0]), Joint(pts[1..]));
        assert [pts[0]] + pts[1..] == pts;
      }
    }
  }

  /** What is printed of the payload types: after the first, two digits only. */
  function Shortened(pts: seq<nat>): (r: seq<nat>)
    ensures |r| == |pts|
  {
    seq(|pts|, i requires 0 <= i < |pts| => if i > 0 && pts[i] >= 100 then pts[i] / 10 else pts[i])
  }

  lemma ShortDigits(n: nat)
    requires n < 256
    ensures Cut(" " + Digits(n), 3) == " " + Digits(if n >= 100 then n / 10 else n)
  {
    SmallPowers();
    if n >= 100 {
      var d := [('0' as int + n % 10) as char];
      assert Digits(n) == Digits(n / 10) + d;
      assert |Digits(n / 10 / 10)| == 1 && |Digits(n / 10)| == 2;
      assert " " + Digits(n) == (" " + Digits(n / 10)) + d;
    } else {
      DigitsShort(n, 2);
    }
  }

  lemma {:induction false} PtsShortened(pts: seq<nat>)
    requires forall i :: 0 <= i < |pts| ==> pts[i] < 256
    ensures PtsText(pts) == Joint(Shortened(pts))
  {
    hide Digits;
    SmallPowers();
    var r := Shortened(pts);
    if |pts| == 1 {
      DigitsShort(pts[0], 3);
    } else if |pts| > 1 {
      var k := |pts| - 1;
      PtsShortened(pts[..k]);
      assert Shortened(pts[..k]) == r[..k];
      ShortDigits(pts[k]);
      JointEnd(r);
      assert Joint(r[..k]) + " " + Digits(r[k]) == Joint(r[..k]) + (" " + Digits(r[k]));
    }
  }

  /** Payload types come back from their printed text exactly if those after the first
      have at most two digits. */
  lemma PtsSurvive(pts: seq<nat>)
    requires forall i :: 0 <= i < |pts| ==> pts[i] < 256
    ensures ParsePts(PtsText(pts)) == Shortened(pts)
    ensures ParsePts(PtsText(pts)) == pts <==> forall i :: 0 < i < |pts| ==> pts[i] < 100
  {
    hide PtsText, ParsePts, Joint;
    PtsShortened(pts);
    PtsReadBack(Shortened(pts));
    if i :| 0 < i < |pts| && pts[i] >= 100 {
      assert Shortened(pts)[i] != pts[i];
    }
  }

  function MediaText(m: MediaDesc): string
    requires m.mediaType.Some?
  {
    MediaName(m.mediaType.value) + " " + (PortsText(m) + " " + (m.protocol + " " + Joint(m.pts)))
  }

  lemma MediaReadBack(m: MediaDesc)
    requires m.mediaType.Some? && MediaFair(m)
    ensures PrintMedia(m) == "m=" + MediaText(m) && ParseMedia(MediaText(m)) == NormalMedia(m)
    ensures Free(MediaText(m), CRLF) && !IsSpace(MediaText(m)[0])
  {
    hide Tok, Skip, Free, Atoi, MediaName, PortsText, PortText, Joint, PtsText, ParsePts, Lower;
    var name, ports, pts := MediaName(m.mediaType.value), PortsText(m), Joint(m.pts);
    MediaLower(m.mediaType.value);
    LowerClean(name);
    MediaFound(m.mediaType.value, 0);
    PortsReadBack(m);
    PtsPrinted(m.pts);
    PtsReadBack(m.pts);
    Clean(m.protocol);
    var c := m.protocol + " " + pts;
    WordAt(m.protocol, pts);
    WordAt(ports, c);
    WordAt(name, ports + " " + c);
    assert Ltrim(Rtrim(pts)) == pts by { Trimmed(pts, m.pts); }
    assert "m=" + name + " " + ports + " " + m.protocol + " " + pts == "m=" + (name + " " + (ports + " " + c));
  }

  lemma Trimmed(t: string, pts: seq<nat>)
    requires t == Joint(pts) && forall i :: 0 <= i < |pts| ==> pts[i] < 256
    ensures Ltrim(Rtrim(t)) == t
  {
    hide Digits;
    PtsReadBack(pts);
  }

  // ----------------------------------------------------------------------- any line

  /** A line that starts with a letter and an equals sign. */
  lemma LetterAt(p: string, t: string)
    requires |p| == 2 && p[1] == '=' && p[0] != '=' && p[0] != '\r' && p[0] != '\n'
    requires Free(t, CRLF) && (t != "" ==> !IsSpace(t[0]))
    ensures Tok(p + t, "=") == [p[0]] && Ltrim(Skip(p + t, "=")) == t && Free(p + t, CRLF)
  {
    hide Tok, Skip, Free;
    LetterClean(p[0]);
    assert p == [p[0]] + "=";
    TokAt([p[0]], "=", t);
    FreeJoined([p[0]], "=", CRLF);
    FreeJoined([p[0]] + "=", t, CRLF);
  }

  lemma LetterClean(c: char)
    requires c != '=' && c != '\r' && c != '\n'
    ensures Free([c], "=") && Free([c], CRLF) && Free("=", CRLF)
  {
  }

  /** A fair line is printed as one line and comes back in its normal form. */
  lemma LineReadBack(l: Line)
    requires Fair(l)
    ensures ParseLine(PrintLine(l)) == Some(NormalLine(l)) && Free(PrintLine(l), CRLF) && PrintLine(l) != ""
  {
    hide Tok, Skip, Free, Digits, Atoi, Ltrim, PrintOrigin, PrintConnection, PrintAttribute, PrintMedia,
      ParseOrigin, ParseConnection, ParseTiming, ParseAttribute, ParseMedia, MediaText, AttributeText;
    match l
    case VersionLine(n) =>
      NumberClean(n);
      AtoiDigits(n);
      Powers();
      DigitsShort(n, 10);
      LetterAt("v=", Digits(n));
    case OriginLine(o) =>
      OriginReadBack(o);
      LetterAt("o=", OriginText(o));
    case StringLine(c, d) => LetterAt([c] + "=", d);
    case ConnectionLine(c) =>
      ConnectionReadBack(c);
      LetterAt("c=", c.nettype + " " + (c.addrtype + " " + (c.address + "/" + Digits(NormalConnection(c).ttl))));
    case TimingLine(t) =>
      TimingReadBack(t);
      LetterAt("t=", Digits(t.start) + " " + Digits(t.stop));
    case AttributeLine(a) =>
      AttributeReadBack(a.value);
      LetterAt("a=", AttributeText(a.value));
    case MediaLine(m) =>
      MediaReadBack(m);
      LetterAt("m=", MediaText(m));
  }
}
