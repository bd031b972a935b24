/** src/sdp.cpp as it works: line parsers that move a cursor, the line loop with its
    pointer to the current media, and the printer. */
module SdpObjects {
  import opened Tokens
  import opened SipTables
  import opened HeaderText
  import opened SdpText
  import S = SdpSessions
  import SdpReads

  // ------------------------------------------------------------------ line parsers

  /** What the fixed buffers of a line hold. */
  predicate LineFits(l: Line) {
    match l
    case OriginLine(o) => |o.username| < 150 && |o.nettype| < 3 && |o.addrtype| < 4 && |o.address| < 46
    case ConnectionLine(c) => |c.nettype| < 3 && |c.addrtype| < 4 && |c.address| < 46
    case AttributeLine(a) => a.Some? ==> AttributeFits(a.value)
    case MediaLine(m) => |m.protocol| < 10 && |m.pts| <= 20
    case _ => true
  }

  predicate AttributeFits(a: Attribute) {
    match a
    case Rtpmap(pt, encoding, clock, channels, params) => |encoding| < 20 && |params| < 40
    case Fmtp(pt, params) => |params| < 80
    case _ => true
  }

  method OriginParse(input: string) returns (o: Origin)
    requires LineFits(OriginLine(ParseOrigin(input)))
    ensures o == ParseOrigin(input)
  {
    hide Tok, Skip, After, Left, Atoi;
    StartLeft(input);
    var pos := At(0);
    var username, sessionId, sessionVersion, nettype, addrtype, address;
    LeftAfter(input, " ", pos);
    username, pos := NextToken(input, " ", pos);
    LeftAfter(input, " ", pos);
    sessionId, pos := NextToken(input, " ", pos);
    LeftAfter(input, " ", pos);
    sessionVersion, pos := NextToken(input, " ", pos);
    LeftAfter(input, " ", pos);
    nettype, pos := NextToken(input, " ", pos);
    LeftAfter(input, " ", pos);
    addrtype, pos := NextToken(input, " ", pos);
    address, pos := GetRest(input, pos);
    o := Origin(username, Atoi(sessionId) % TWO64, Atoi(sessionVersion) % TWO64, nettype, addrtype, address);
  }

  method ConnectionParse(input: string) returns (c: Connection)
    requires LineFits(ConnectionLine(ParseConnection(input)))
    ensures c == ParseConnection(input)
    ensures forall n, a, d :: SdpReads.ConnectionWords(n, a, d) && "c=" + input == SdpReads.ConnectionText(n, a, d) ==> c == Connection(n, a, d, 0)
  {
    forall n, a, d | SdpReads.ConnectionWords(n, a, d) && "c=" + input == SdpReads.ConnectionText(n, a, d)
      ensures ParseConnection(input) == Connection(n, a, d, 0) {
      SdpReads.ConnectionValueRead(input, n, a, d);
    }
    hide SdpReads.ConnectionWords, SdpReads.ConnectionText;
    hide Tok, Skip, After, Left, Atoi;
    StartLeft(input);
    var pos, pos2 := At(0), At(0);
    var nettype, addrtype, addressPart, address, ttl;
    LeftAfter(input, " ", pos);
    nettype, pos := NextToken(input, " ", pos);
    LeftAfter(input, " ", pos);
    addrtype, pos := NextToken(input, " ", pos);
    addressPart, pos := GetRest(input, pos);
    StartLeft(addressPart);
    LeftAfter(addressPart, "/", pos2);
    address, pos2 := NextToken(addressPart, "/", pos2);
    ttl, pos2 := NextToken(addressPart, "/", pos2);
    c := Connection(nettype, addrtype, address, Atoi(ttl) % 256);
  }

  method TimingParse(input: string) returns (t: Timing)
    ensures t == ParseTiming(input)
  {
    hide Tok, Skip, After, Left, Atoi;
    StartLeft(input);
    var pos := At(0);
    var start, stop;
    LeftAfter(input, " ", pos);
    start, pos := NextToken(input, " ", pos);
    stop, pos := GetRest(input, pos);
    t := Timing(Atoi(start) % TWO64, Atoi(stop) % TWO64);
  }

  /** The loop over the payload types, which fills an array of twenty. */
  method PtsParse(input: string) returns (pts: seq<nat>)
    requires |ParsePts(Ltrim(Rtrim(input)))| <= 20
    ensures pts == ParsePts(Ltrim(Rtrim(input)))
  {
    hide Tok, Skip, After, Left, Atoi, ParsePts, Ltrim, Rtrim;
    var ptsString := Ltrim(Rtrim(input));
    var table := new nat[20];
    var ptsCount, len, pos2 := 0, |ptsString|, At(0);
    StartLeft(ptsString);
    ghost var rest := ptsString;
    PtsStep(rest);
    NoTok(" ");
    PtsStep("");
    while len > 0
      invariant ptsCount <= 20 && 0 <= len && rest == Left(ptsString, pos2) && (len == 0 ==> ParsePts(rest) == [])
      invariant table[..ptsCount] + ParsePts(rest) == ParsePts(ptsString)
      decreases |rest|
    {
      LeftAfter(ptsString, " ", pos2);
      PtsStep(rest);
      var ptString;
      ptString, pos2 := NextToken(ptsString, " ", pos2);
      len := |ptString|;
      if len < 1 {
        break;
      }
      ghost var was := table[..ptsCount];
      table[ptsCount] := Atoi(ptString) % 256;
      assert table[..ptsCount + 1] == was + [Atoi(ptString) % 256];
      ptsCount := ptsCount + 1;
      rest := Skip(rest, " ");
    }
    assert ParsePts(rest) == [];
    pts := table[..ptsCount];
    assert pts + [] == pts;
  }

  lemma PtsStep(r: string)
    ensures Tok(r, " ") != "" ==>
      |Skip(r, " ")| < |r| && ParsePts(r) == [Atoi(Tok(r, " ")) % 256] + ParsePts(Skip(r, " "))
    ensures Tok(r, " ") == "" ==> ParsePts(r) == []
  {
    hide Tok, Skip, Atoi;
  }

  method MediaParse(input: string) returns (m: MediaDesc)
    requires LineFits(MediaLine(ParseMedia(input)))
    ensures m == ParseMedia(input)
  {
    hide Tok, Skip, After, Left, Atoi, ParsePts, MediaPlace;
    StartLeft(input);
    var pos, pos2 := At(0), At(0);
    var media, portStr, port, portCount, protocol, ptsString;
    LeftAfter(input, " ", pos);
    media, pos := NextToken(input, " ", pos);
    var mediaType := DecodeMedia(media);
    LeftAfter(input, " ", pos);
    portStr, pos := NextToken(input, " ", pos);
    StartLeft(portStr);
    LeftAfter(portStr, "/", pos2);
    port, pos2 := NextToken(portStr, "/", pos2);
    portCount, pos2 := NextToken(portStr, "/", pos2);
    LeftAfter(input, " ", pos);
    protocol, pos := NextToken(input, " ", pos);
    ptsString, pos := GetRest(input, pos);
    var pts := PtsParse(ptsString);
    m := MediaDesc(mediaType, Atoi(port) % 65536, if |portCount| > 0 then Atoi(portCount) % 65536 else 0, protocol, pts);
  }

  method RtpmapParse(input: string) returns (a: Attribute)
    requires AttributeFits(ParseRtpmap(input))
    ensures a == ParseRtpmap(input)
  {
    hide Tok, Skip, After, Left, Atoi;
    StartLeft(input);
    var pos, pos2 := At(0), At(0);
    var pt, encodingData, encoding, clock, params;
    LeftAfter(input, " ", pos);
    pt, pos := NextToken(input, " ", pos);
    encodingData, pos := GetRest(input, pos);
    StartLeft(encodingData);
    LeftAfter(encodingData, "/", pos2);
    encoding, pos2 := NextToken(encodingData, "/", pos2);
    LeftAfter(encodingData, "/", pos2);
    clock, pos2 := NextToken(encodingData, "/", pos2);
    params, pos2 := GetRest(encodingData, pos2);
    a := Rtpmap(Atoi(pt) % 65536, encoding, Atoi(clock) % TWO32, if |params| > 0 then Atoi(params) % 65536 else 0, params);
  }

  method FmtpParse(input: string) returns (a: Attribute)
    requires AttributeFits(ParseFmtp(input))
    ensures a == ParseFmtp(input)
  {
    StartLeft(input);
    var pos, pos2 := At(0), At(0);
    var pt, params;
    pt, pos := NextToken(input, " ", pos);
    params, pos2 := GetRest(input, pos2);
    a := Fmtp(Atoi(pt) % 65536, params);
  }

  /** sipster_sdp_parse_attribute. */
  method AttributeParse(input: string) returns (a: Option<Attribute>)
    requires LineFits(AttributeLine(ParseAttribute(input)))
    ensures a == ParseAttribute(input)
  {
    hide Tok, Skip, After, Left, Ltrim, AttributePlace, ParseRtpmap, ParseFmtp, AttributeFits;
    StartLeft(input);
    var pos := At(0);
    var attr, rest;
    LeftAfter(input, ":", pos);
    attr, pos := NextToken(input, ":", pos);
    rest, pos := GetRest(input, pos);
    var cleanRest := Ltrim(rest);
    var k := FindAttribute(attr);
    if k == None {
      return None;
    }
    if k.value == RTPMAP {
      var r := RtpmapParse(cleanRest);
      a := Some(r);
    } else if k.value == FMTP {
      var f := FmtpParse(cleanRest);
      a := Some(f);
    } else {
      a := Some(Plain(k.value));
    }
  }

  // ---------------------------------------------------------------- the line table

  const LETTERS: string := "vosiuepcbtrzkam"

  /** The letter of a line name, if it is in the table. */
  method FindLetter(name: string) returns (letter: Option<char>)
    ensures letter.Some? ==> name == [letter.value] && letter.value in LETTERS
    ensures letter == None ==> |name| != 1 || name[0] !in LETTERS
  {
    var i := 0;
    while i < |LETTERS|
      invariant i <= |LETTERS|
      invariant forall j :: 0 <= j < i ==> name != [LETTERS[j]]
    {
      if name == [LETTERS[i]] {
        return Some(LETTERS[i]);
      }
      i := i + 1;
    }
    letter := None;
    if |name| == 1 { assert name == [name[0]]; }
  }

  /** sipster_sdp_parse_header. */
  method HeaderParse(line: string) returns (l: Option<Line>)
    requires ParseLine(line).Some? ==> LineFits(ParseLine(line).value)
    ensures l == ParseLine(line)
  {
    hide Tok, Skip, After, Left, Ltrim, Atoi, ParseOrigin, ParseConnection, ParseTiming, ParseAttribute, ParseMedia, Cut;
    StartLeft(line);
    var pos := At(0);
    var name, rest;
    LeftAfter(line, "=", pos);
    name, pos := NextToken(line, "=", pos);
    rest, pos := GetRest(line, pos);
    var cleanRest := Ltrim(rest);
    var letter := FindLetter(name);
    if letter == None {
      assert name != "v" && name != "o" && name !in ["s", "i", "u", "e", "p"] && name != "c" && name != "t" && name != "a" && name != "m";
      return None;
    }
    match letter.value {
      case 'v' => l := Some(VersionLine(Atoi(cleanRest) % TWO32));
      case 'o' => var o := OriginParse(cleanRest); l := Some(OriginLine(o));
      case 's' => l := Some(StringLine('s', Cut(cleanRest, 399)));
      case 'i' => l := Some(StringLine('i', Cut(cleanRest, 399)));
      case 'u' => l := Some(StringLine('u', Cut(cleanRest, 399)));
      case 'e' => l := Some(StringLine('e', Cut(cleanRest, 399)));
      case 'p' => l := Some(StringLine('p', Cut(cleanRest, 399)));
      case 'c' => var c := ConnectionParse(cleanRest); l := Some(ConnectionLine(c));
      case 't' => var t := TimingParse(cleanRest); l := Some(TimingLine(t));
      case 'a' => var a := AttributeParse(cleanRest); l := Some(AttributeLine(a));
      case 'm' => var m := MediaParse(cleanRest); l := Some(MediaLine(m));
      case _ => l := None;
    }
  }

  // ------------------------------------------------------------------- the line loop

  class SdpMedia {
    var mediaHeader: MediaDesc
    var title: Option<string>
    var connection: Option<Connection>
    var attributes: seq<Option<Attribute>>

    constructor (header: MediaDesc)
      ensures Value() == S.Media(header, None, None, [])
    {
      mediaHeader, title, connection, attributes := header, None, None, [];
    }

    ghost function Value(): S.Media
      reads this
    {
      S.Media(mediaHeader, title, connection, attributes)
    }
  }

  class Sdp {
    var version: Option<nat>
    var origin: Option<Origin>
    var sessionName: Option<string>
    var sessionInfo: Option<string>
    var uri: Option<string>
    var email: Option<string>
    var phone: Option<string>
    var connection: Option<Connection>
    var timing: Option<Timing>
    var attributes: seq<Option<Attribute>>
    var media: seq<SdpMedia>

    ghost predicate Valid()
      reads this
    {
      forall i, j :: 0 <= i < j < |media| ==> media[i] != media[j]
    }

    ghost function Medias(): (r: seq<S.Media>)
      reads this, media
      ensures |r| == |media| && forall i :: 0 <= i < |media| ==> r[i] == media[i].Value()
    {
      seq(|media|, i requires 0 <= i < |media| reads this, media => media[i].Value())
    }

    ghost function Value(): S.Session
      reads this, media
    {
      S.Session(version, origin, sessionName, sessionInfo, uri, email, phone, connection, timing, attributes, Medias())
    }

    constructor ()
      ensures Valid() && Value() == S.EMPTY && media == []
    {
      version, origin, sessionName, sessionInfo, uri, email, phone := None, None, None, None, None, None, None;
      connection, timing, attributes, media := None, None, [], [];
    }

    /** The arrays hold ten attributes, five media and twenty attributes of each. */
    ghost predicate Roomy(l: Line)
      reads this, media
    {
      match l
      case MediaLine(m) => |media| < 5
      case AttributeLine(a) => if media == [] then |attributes| < 10 else |media[|media| - 1].attributes| < 20
      case _ => true
    }

    /** The three lines that go to the current media. */
    method StoreInMedia(l: Line, current: SdpMedia)
      requires Valid() && media != [] && current == media[|media| - 1] && S.Scoped(l)
      modifies current
      ensures Value() == S.Place(old(Value()), l)
    {
      ghost var k, was := |media| - 1, Medias();
      match l {
        case StringLine(c, d) => current.title := Some(d);
        case ConnectionLine(c) => current.connection := Some(c);
        case AttributeLine(a) => current.attributes := current.attributes + [a];
      }
      assert current.Value() == S.PlaceInMedia(was[k], l);
      assert Medias() == was[..k] + [S.PlaceInMedia(was[k], l)];
    }

    /** The lines that go to the session itself. */
    method StoreInSession(l: Line)
      requires Valid() && !l.MediaLine? && !(media != [] && S.Scoped(l))
      requires l.StringLine? ==> l.letter in "siuep"
      modifies this
      ensures media == old(media) && Value() == S.Place(old(Value()), l)
    {
      ghost var was := Medias();
      match l {
        case VersionLine(n) => version := Some(n);
        case OriginLine(o) => origin := Some(o);
        case StringLine(c, d) => StoreString(c, d);
        case ConnectionLine(c) => connection := Some(c);
        case TimingLine(t) => timing := Some(t);
        case AttributeLine(a) => attributes := attributes + [a];
      }
      assert Medias() == was;
    }

    method StoreString(c: char, d: string)
      requires c in "siuep"
      modifies `sessionName, `sessionInfo, `uri, `email, `phone
      ensures Value() == S.PlaceString(old(Value()), c, d)
    {
      ghost var was := Medias();
      match c {
        case 's' => sessionName := Some(d);
        case 'i' => sessionInfo := Some(d);
        case 'u' => uri := Some(d);
        case 'e' => email := Some(d);
        case _ => phone := Some(d);
      }
      assert Medias() == was;
    }

    /** A media line, which opens a section. */
    method StoreMedia(d: MediaDesc) returns (current: SdpMedia)
      requires Valid() && Roomy(MediaLine(d))
      modifies this
      ensures Valid() && media != [] && current == media[|media| - 1] && fresh(current)
      ensures Value() == S.Place(old(Value()), MediaLine(d))
    {
      ghost var was := Medias();
      current := new SdpMedia(d);
      media := media + [current];
      assert Medias() == was + [S.Media(d, None, None, [])];
    }

    /** The switch of the line loop, with its pointer to the current media. */
    method Store(l: Line, current: SdpMedia?) returns (current': SdpMedia?)
      requires Valid() && Roomy(l) && current == (if media == [] then null else media[|media| - 1])
      requires l.StringLine? ==> l.letter in "siuep"
      modifies this, current
      ensures Valid() && current' == (if media == [] then null else media[|media| - 1])
      ensures Value() == S.Place(old(Value()), l)
      ensures current' == current || fresh(current')
    {
      hide S.Place, S.Scoped, Medias;
      current' := current;
      if l.MediaLine? {
        current' := StoreMedia(l.media);
      } else if current != null && S.Scoped(l) {
        StoreInMedia(l, current);
      } else {
        StoreInSession(l);
      }
    }
  }

  // --------------------------------------------------------------- parsing a description

  /** What the buffers and the arrays hold. */
  ghost predicate TextFits(text: string) {
    var s := S.ParseSdp(text);
    && (forall i :: 0 <= i < |Lines(text, At(0)).0| ==>
          ParseLine(Lines(text, At(0)).0[i]).Some? ==> LineFits(ParseLine(Lines(text, At(0)).0[i]).value))
    && |s.attributes| <= 10 && |s.media| <= 5
    && forall i :: 0 <= i < |s.media| ==> |s.media[i].attributes| <= 20
  }

  /** A session that has grown. */
  ghost predicate Within(s: S.Session, t: S.Session) {
    && |s.attributes| <= |t.attributes| && |s.media| <= |t.media|
    && forall i :: 0 <= i < |s.media| ==> |s.media[i].attributes| <= |t.media[i].attributes|
  }

  lemma PlaceGrows(s: S.Session, l: Line)
    ensures Within(s, S.Place(s, l))
  {
  }

  lemma {:induction false} BuildGrows(s: S.Session, ls: seq<Line>)
    ensures Within(s, S.Build(s, ls))
    decreases |ls|
  {
    hide S.Place;
    if ls != [] {
      PlaceGrows(s, ls[0]);
      BuildGrows(S.Place(s, ls[0]), ls[1..]);
    }
  }

  /** The lines still to come leave room for the next one. */
  lemma RoomFor(sdp: Sdp, l: Line, rest: seq<Line>)
    requires sdp.Valid()
    requires var t := S.Build(S.Place(sdp.Value(), l), rest);
      |t.attributes| <= 10 && |t.media| <= 5 && forall i :: 0 <= i < |t.media| ==> |t.media[i].attributes| <= 20
    ensures sdp.Roomy(l)
  {
    hide S.Build;
    var v := sdp.Value();
    BuildGrows(S.Place(v, l), rest);
    if l.AttributeLine? && v.media != [] {
      var k := |v.media| - 1;
      assert v.media[..k] + [v.media[k]] == v.media;
      assert v == v.(media := v.media[..k] + [v.media[k]]);
      S.PlaceLast(v, v.media[..k], v.media[k], l);
      var u, t := S.Place(v, l), S.Build(S.Place(v, l), rest);
      assert u.media[k] == S.PlaceInMedia(v.media[k], l);
      assert |u.media[k].attributes| <= |t.media[k].attributes|;
    }
  }

  lemma ParsedLetter(line: string)
    ensures ParseLine(line).Some? && ParseLine(line).value.StringLine? ==> ParseLine(line).value.letter in "siuep"
  {
    hide Tok, Skip, Ltrim, ParseMedia, ParseOrigin, ParseConnection, ParseTiming, ParseAttribute;
  }

  /** One turn of the loop: the first of the texts left, and what it does to the rest. */
  lemma Turn(text: string, p: Cursor, v: S.Session)
    ensures var t, next := Tok(Left(text, p), CRLF), After(text, CRLF, p);
      && (t == "" ==> S.Build(v, S.Understood(Lines(text, p).0)) == v)
      && (t != "" ==> (
            && |Left(text, next)| < |Left(text, p)| && Lines(text, p).0 == [t] + Lines(text, next).0
            && S.Build(v, S.Understood(Lines(text, p).0))
                 == S.Build(if ParseLine(t).Some? then S.Place(v, ParseLine(t).value) else v, S.Understood(Lines(text, next).0))))
  {
    hide Tok, After, Left, Lines, ParseLine, S.Place;
    var t, next := Tok(Left(text, p), CRLF), After(text, CRLF, p);
    LinesFrom(text, p);
    if t != "" {
      Advances(text, CRLF, p);
      S.UnderstoodStep(t, Lines(text, next).0);
      var rest := S.Understood(Lines(text, next).0);
      if ParseLine(t).Some? {
        assert ([ParseLine(t).value] + rest)[1..] == rest;
      } else {
        assert [] + rest == rest;
      }
    } else {
      assert S.Understood([]) == [];
    }
  }

  predicate TextsFit(texts: seq<string>) {
    forall i :: 0 <= i < |texts| ==> ParseLine(texts[i]).Some? ==> LineFits(ParseLine(texts[i]).value)
  }

  /** sipster_sdp_parse. */
  method SdpParse(sdps: string) returns (sdp: Sdp)
    requires TextFits(sdps)
    ensures fresh(sdp) && sdp.Valid() && sdp.Value() == S.ParseSdp(sdps)
  {
    hide Tok, After, Left, Lines, ParseLine, LineFits, S.Place, S.Build, S.Understood;
    ghost var goal, p := S.ParseSdp(sdps), At(0);
    sdp := new Sdp();
    var media: SdpMedia? := null;
    var line, pos := NextToken(sdps, CRLF, At(0));
    assert TextsFit(Lines(sdps, At(0)).0);
    while line != ""
      invariant fresh(sdp) && sdp.Valid() && media == (if sdp.media == [] then null else sdp.media[|sdp.media| - 1])
      invariant media == null || fresh(media)
      invariant line == Tok(Left(sdps, p), CRLF) && pos == After(sdps, CRLF, p)
      invariant TextsFit(Lines(sdps, p).0)
      invariant S.Build(sdp.Value(), S.Understood(Lines(sdps, p).0)) == goal
      decreases |Left(sdps, p)|
    {
      Turn(sdps, p, sdp.Value());
      FitsStep(line, Lines(sdps, pos).0);
      var header := HeaderParse(line);
      if header.Some? {
        ParsedLetter(line);
        RoomFor(sdp, header.value, S.Understood(Lines(sdps, pos).0));
        media := sdp.Store(header.value, media);
      }
      p := pos;
      line, pos := NextToken(sdps, CRLF, pos);
    }
    Turn(sdps, p, sdp.Value());
  }

  lemma FitsStep(text: string, rest: seq<string>)
    requires TextsFit([text] + rest)
    ensures (ParseLine(text).Some? ==> LineFits(ParseLine(text).value)) && TextsFit(rest)
  {
    hide ParseLine, LineFits;
    assert ([text] + rest)[0] == text;
    assert forall i :: 0 <= i < |rest| ==> rest[i] == ([text] + rest)[i + 1];
  }

  // ---------------------------------------------------------------------- printing

  /** The payload types, each formatted into a buffer of its own. */
  method PtsPrint(pts: seq<nat>) returns (ptDef: string)
    ensures ptDef == PtsText(pts)
  {
    hide Digits;
    ptDef := "";
    var i := 0;
    while i < |pts|
      invariant i <= |pts| && ptDef == PtsText(pts[..i])
    {
      var singlept := Cut(if i == 0 then Digits(pts[i]) else " " + Digits(pts[i]), 3);
      PtsMore(pts[..i], pts[i]);
      assert pts[..i + 1] == pts[..i] + [pts[i]];
      ptDef := ptDef + singlept;
      i := i + 1;
    }
    assert pts[..i] == pts;
  }

  lemma PtsMore(pts: seq<nat>, n: nat)
    ensures PtsText(pts + [n]) == PtsText(pts) + Cut(if pts == [] then Digits(n) else " " + Digits(n), 3)
  {
    hide Digits;
    var all := pts + [n];
    if pts != [] { assert all[..|all| - 1] == pts && all[|all| - 1] == n; }
  }

  method MediaPrint(m: MediaDesc) returns (output: string)
    requires m.mediaType.Some?
    ensures output == PrintMedia(m)
  {
    hide Digits, MediaName, PtsText;
    var portDef := Cut(if m.portCount > 1 then Digits(m.port) + "/" + Digits(m.portCount) else Digits(m.port), 9);
    var ptDef := PtsPrint(m.pts);
    output := Cut("m=" + MediaName(m.mediaType.value) + " " + portDef + " " + m.protocol + " " + ptDef, 79);
  }

  /** A line from the print function of its kind. */
  method LinePrint(l: Line) returns (prnt: string)
    requires Known(l)
    ensures prnt == PrintLine(l)
  {
    hide Digits, PrintMedia;
    if l.MediaLine? {
      prnt := MediaPrint(l.media);
    } else {
      prnt := PrintLine(l);
    }
  }

  /** The size of the output buffer, its terminator included. */
  const SDP_SIZE: nat := 2000

  /** `strcat` of a line that may be missing and of its CRLF. */
  method Cat(sdps: string, ls: seq<Line>, ghost rest: seq<Line>, ghost goal: string) returns (r: string)
    requires |ls| <= 1 && S.AllKnown(ls + rest) && sdps + S.LinesText(ls + rest) == goal && |goal| + 2 < SDP_SIZE
    ensures S.AllKnown(rest) && r + S.LinesText(rest) == goal && |r| + 2 < SDP_SIZE
  {
    hide Known, PrintLine;
    KnownParts(ls, rest);
    if ls == [] {
      assert ls + rest == rest;
      r := sdps;
    } else {
      assert Known((ls + rest)[0]) && (ls + rest)[0] == ls[0] && (ls + rest)[1..] == rest;
      var prnt := LinePrint(ls[0]);
      r := sdps + prnt + CRLF;
      assert sdps + (prnt + CRLF + S.LinesText(rest)) == r + S.LinesText(rest);
    }
  }

  lemma KnownParts(a: seq<Line>, b: seq<Line>)
    ensures S.AllKnown(a + b) <==> S.AllKnown(a) && S.AllKnown(b)
  {
    hide Known;
    if S.AllKnown(a + b) {
      forall i | 0 <= i < |a| ensures Known(a[i]) { assert a[i] == (a + b)[i]; }
      forall i | 0 <= i < |b| ensures Known(b[i]) { assert b[i] == (a + b)[|a| + i]; }
    }
  }

  /** The loop over attributes, of the session or of a media. */
  method CatAttributes(sdps: string, attributes: seq<Option<Attribute>>, ghost rest: seq<Line>, ghost goal: string) returns (r: string)
    requires S.AllKnown(S.AttributeLines(attributes) + rest) && |goal| + 2 < SDP_SIZE
    requires sdps + S.LinesText(S.AttributeLines(attributes) + rest) == goal
    ensures S.AllKnown(rest) && r + S.LinesText(rest) == goal
  {
    hide Known, S.LinesText, S.AllKnown;
    r := sdps;
    var i := 0;
    assert attributes[0..] == attributes;
    while i < |attributes|
      invariant i <= |attributes|
      invariant S.AllKnown(S.AttributeLines(attributes[i..]) + rest)
      invariant r + S.LinesText(S.AttributeLines(attributes[i..]) + rest) == goal
    {
      var l := AttributeLine(attributes[i]);
      assert attributes[i..][1..] == attributes[i + 1..];
      assert S.AttributeLines(attributes[i..]) + rest == [l] + (S.AttributeLines(attributes[i + 1..]) + rest);
      r := Cat(r, [l], S.AttributeLines(attributes[i + 1..]) + rest, goal);
      i := i + 1;
    }
    assert S.AttributeLines(attributes[i..]) + rest == rest;
  }

  /** A media with its lines. */
  method CatMedia(sdps: string, m: SdpMedia, ghost rest: seq<Line>, ghost goal: string) returns (r: string)
    requires S.AllKnown(S.MediaLines(m.Value()) + rest) && |goal| + 2 < SDP_SIZE
    requires sdps + S.LinesText(S.MediaLines(m.Value()) + rest) == goal
    ensures S.AllKnown(rest) && r + S.LinesText(rest) == goal
  {
    hide Known, S.LinesText, S.AllKnown, S.AttributeLines;
    ghost var c := S.AttributeLines(m.attributes) + rest;
    ghost var b := S.ConnectionLines(m.connection) + c;
    ghost var a := S.StringLines('i', m.title) + b;
    assert S.MediaLines(m.Value()) + rest == [MediaLine(m.mediaHeader)] + a;
    r := Cat(sdps, [MediaLine(m.mediaHeader)], a, goal);
    r := Cat(r, S.StringLines('i', m.title), b, goal);
    r := Cat(r, S.ConnectionLines(m.connection), c, goal);
    r := CatAttributes(r, m.attributes, rest, goal);
  }

  lemma Assoc(a: seq<Line>, b: seq<Line>, c: seq<Line>)
    ensures (a + b) + c == a + (b + c)
  {
  }

  /** The lines from the version to the information, and from the address of the web page on. */
  ghost function LowerLines(v: S.Session, rest: seq<Line>): seq<Line> {
    S.StringLines('u', v.uri) + (S.StringLines('e', v.email) + (S.StringLines('p', v.phone)
      + (S.ConnectionLines(v.connection) + (S.TimingLines(v.timing) + rest))))
  }

  ghost function UpperLines(v: S.Session, rest: seq<Line>): seq<Line> {
    S.VersionLines(v.version) + (S.OriginLines(v.origin) + (S.StringLines('s', v.name) + (S.StringLines('i', v.info) + rest)))
  }

  lemma HeadOn(v: S.Session, rest: seq<Line>)
    ensures S.HeadLines(v) + rest == UpperLines(v, LowerLines(v, rest))
  {
    hide S.StringLines, S.VersionLines, S.OriginLines, S.ConnectionLines, S.TimingLines;
    var i := S.TimingLines(v.timing);
    var h := S.ConnectionLines(v.connection) + i;
    var g := S.StringLines('p', v.phone) + h;
    var f := S.StringLines('e', v.email) + g;
    var e := S.StringLines('u', v.uri) + f;
    var d := S.StringLines('i', v.info) + e;
    var c := S.StringLines('s', v.name) + d;
    Assoc(S.ConnectionLines(v.connection), i, rest);
    Assoc(S.StringLines('p', v.phone), h, rest);
    Assoc(S.StringLines('e', v.email), g, rest);
    Assoc(S.StringLines('u', v.uri), f, rest);
    Assoc(S.StringLines('i', v.info), e, rest);
    Assoc(S.StringLines('s', v.name), d, rest);
    Assoc(S.OriginLines(v.origin), c, rest);
    Assoc(S.VersionLines(v.version), S.OriginLines(v.origin) + c, rest);
  }

  method CatUpper(sdp: Sdp, ghost rest: seq<Line>, ghost goal: string) returns (r: string)
    requires |goal| + 2 < SDP_SIZE
    requires S.AllKnown(UpperLines(sdp.Value(), rest)) && S.LinesText(UpperLines(sdp.Value(), rest)) == goal
    ensures S.AllKnown(rest) && r + S.LinesText(rest) == goal
  {
    hide Known, S.LinesText, S.AllKnown, S.StringLines;
    ghost var d := S.StringLines('i', sdp.sessionInfo) + rest;
    ghost var c := S.StringLines('s', sdp.sessionName) + d;
    r := Cat("", S.VersionLines(sdp.version), S.OriginLines(sdp.origin) + c, goal);
    r := Cat(r, S.OriginLines(sdp.origin), c, goal);
    OneString('s', sdp.sessionName);
    r := Cat(r, S.StringLines('s', sdp.sessionName), d, goal);
    OneString('i', sdp.sessionInfo);
    r := Cat(r, S.StringLines('i', sdp.sessionInfo), rest, goal);
  }

  lemma OneString(c: char, d: Option<string>)
    ensures |S.StringLines(c, d)| <= 1
  {
  }

  method CatLower(sdps: string, sdp: Sdp, ghost rest: seq<Line>, ghost goal: string) returns (r: string)
    requires |goal| + 2 < SDP_SIZE
    requires S.AllKnown(LowerLines(sdp.Value(), rest)) && sdps + S.LinesText(LowerLines(sdp.Value(), rest)) == goal
    ensures S.AllKnown(rest) && r + S.LinesText(rest) == goal
  {
    hide Known, S.LinesText, S.AllKnown, S.StringLines;
    ghost var i := S.TimingLines(sdp.timing) + rest;
    ghost var h := S.ConnectionLines(sdp.connection) + i;
    ghost var g := S.StringLines('p', sdp.phone) + h;
    OneString('u', sdp.uri);
    r := Cat(sdps, S.StringLines('u', sdp.uri), S.StringLines('e', sdp.email) + g, goal);
    OneString('e', sdp.email);
    r := Cat(r, S.StringLines('e', sdp.email), g, goal);
    OneString('p', sdp.phone);
    r := Cat(r, S.StringLines('p', sdp.phone), h, goal);
    r := Cat(r, S.ConnectionLines(sdp.connection), i, goal);
    r := Cat(r, S.TimingLines(sdp.timing), rest, goal);
  }

  /** sipster_sdp_print. */
  method SdpPrint(sdp: Sdp) returns (sdps: string)
    requires sdp.Valid() && S.AllKnown(S.SessionLines(sdp.Value())) && |S.PrintSdp(sdp.Value())| < SDP_SIZE
    ensures sdps == S.PrintSdp(sdp.Value())
  {
    hide Known, S.LinesText, S.AllKnown, S.AttributeLines, S.AllMediaLines, S.HeadLines, UpperLines, LowerLines;
    ghost var v := sdp.Value();
    ghost var goal := S.LinesText(S.SessionLines(v));
    ghost var m := S.AllMediaLines(v.media);
    ghost var j := S.AttributeLines(v.attributes) + m;
    HeadOn(v, j);
    sdps := CatUpper(sdp, LowerLines(v, j), goal);
    sdps := CatLower(sdps, sdp, j, goal);
    sdps := CatAttributes(sdps, sdp.attributes, m, goal);
    sdps := CatAllMedia(sdps, sdp, goal);
    sdps := sdps + CRLF;
  }

  method CatAllMedia(sdps: string, sdp: Sdp, ghost goal: string) returns (r: string)
    requires S.AllKnown(S.AllMediaLines(sdp.Value().media)) && |goal| + 2 < SDP_SIZE
    requires sdps + S.LinesText(S.AllMediaLines(sdp.Value().media)) == goal
    ensures r == goal
  {
    hide Known, S.AllKnown, S.MediaLines;
    ghost var ms := sdp.Medias();
    r := sdps;
    var i := 0;
    assert ms[0..] == ms;
    while i < |sdp.media|
      invariant i <= |sdp.media| && sdp.Medias() == ms
      invariant S.AllKnown(S.AllMediaLines(ms[i..])) && r + S.LinesText(S.AllMediaLines(ms[i..])) == goal
    {
      assert ms[i..][1..] == ms[i + 1..];
      assert S.AllMediaLines(ms[i..]) == S.MediaLines(sdp.media[i].Value()) + S.AllMediaLines(ms[i + 1..]);
      r := CatMedia(r, sdp.media[i], S.AllMediaLines(ms[i + 1..]), goal);
      i := i + 1;
    }
    assert S.LinesText([]) == "" && r + "" == r;
  }

  // ------------------------------------------------------------- printed and parsed

  /** What the arrays of a session hold. */
  predicate Capacious(v: S.Session) {
    |v.attributes| <= 10 && |v.media| <= 5 && forall i :: 0 <= i < |v.media| ==> |v.media[i].attributes| <= 20
  }

  lemma FairFits(l: Line)
    requires Fair(l)
    ensures LineFits(NormalLine(l))
  {
    hide Free, Word, MediaText, OriginText, Digits;
    if l.AttributeLine? && l.attribute.value.Rtpmap? {
      SmallPowers();
      DigitsShort(l.attribute.value.channels, 5);
    }
  }

  /** A printed session fits the parser. */
  lemma PrintedTextFits(v: S.Session)
    requires S.AllFair(S.SessionLines(v)) && Capacious(v)
    ensures S.AllKnown(S.SessionLines(v)) && TextFits(S.PrintSdp(v))
  {
    hide Fair, Known, ParseLine, PrintLine, LineFits, NormalLine, Lines, S.SessionLines, S.LinesText, S.Normal, S.ParseSdp;
    var ls := S.SessionLines(v);
    S.SdpRoundTrip(v);
    S.TextsReadBack(ls);
    var text, ts := S.PrintSdp(v), S.Texts(ls);
    assert text == Terminated(ts) + CRLF + "" && text[0..] == text;
    LinesRead(text, 0, ts, "");
    forall i | 0 <= i < |ls| ensures ParseLine(ts[i]).Some? ==> LineFits(ParseLine(ts[i]).value) {
      S.TextsAt(ls, i);
      LineReadBack(ls[i]);
      FairFits(ls[i]);
    }
    NormalCapacious(v);
  }

  lemma NormalCapacious(v: S.Session)
    requires Capacious(v)
    ensures Capacious(S.Normal(v))
  {
    S.NormalAttributesSize(v.attributes);
    S.NormalMediasSize(v.media);
  }

  /** A session that is printed and parsed again comes back in its normal form. */
  method Resend(sdp: Sdp) returns (again: Sdp)
    requires sdp.Valid() && S.AllFair(S.SessionLines(sdp.Value())) && Capacious(sdp.Value())
    requires S.AllKnown(S.SessionLines(sdp.Value())) && |S.PrintSdp(sdp.Value())| < SDP_SIZE
    ensures fresh(again) && again.Valid() && again.Value() == S.Normal(sdp.Value())
  {
    hide S.SessionLines, S.PrintSdp, S.ParseSdp, S.Normal, S.AllFair, S.AllKnown, TextFits, Capacious;
    ghost var v := sdp.Value();
    PrintedTextFits(v);
    S.SdpRoundTrip(v);
    var text := SdpPrint(sdp);
    again := SdpParse(text);
  }
}
