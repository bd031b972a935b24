/** What SDP lines and descriptions are read as, whoever wrote them (src/sdp.cpp): the printer
    writes only some of the forms that the parsers take. */
module SdpReads {
  import opened Tokens
  import opened SipTables
  import opened HeaderText
  import opened HeaderReads
  import opened SdpText
  import opened SdpSessions

  lemma NoNumber()
    ensures Atoi("") == 0
  {
  }

  // ------------------------------------------------------------------- line values

  /** A connection without a ttl has the ttl 0 and its whole address; anything behind a second
      slash is passed over; missing words are empty. */
  lemma ConnectionRead(n: string, a: string, d: string, ttl: string, more: string)
    requires Free(n, " ") && Free(a, " ") && Free(d, "/") && Free(ttl, "/")
    ensures ParseConnection(n + " " + (a + " " + d)) == Connection(n, a, d, 0)
    ensures ParseConnection(n + " " + (a + " " + (d + "/" + ttl))) == Connection(n, a, d, Atoi(ttl) % 256)
    ensures ParseConnection(n + " " + (a + " " + (d + "/" + (ttl + "/" + more)))) == Connection(n, a, d, Atoi(ttl) % 256)
    ensures ParseConnection(n + " " + a) == Connection(n, a, "", 0) && ParseConnection(n) == Connection(n, "", "", 0)
  {
    hide Tok, Skip, Atoi;
    NoNumber();
    NoTok(" ");
    NoTok("/");
    AfterWords(n, a, d);
    AfterWords(n, a, d + "/" + ttl);
    AfterWords(n, a, d + "/" + (ttl + "/" + more));
    TokAll(d, "/");
    TokAt(d, "/", ttl);
    TokAll(ttl, "/");
    TokAt(d, "/", ttl + "/" + more);
    TokAt(ttl, "/", more);
    TokAt(n, " ", a);
    TokAll(n, " ");
    TokAll(a, " ");
  }

  lemma AfterWords(n: string, a: string, rest: string)
    requires Free(n, " ") && Free(a, " ")
    ensures var r := n + " " + (a + " " + rest);
      Tok(r, " ") == n && Tok(Skip(r, " "), " ") == a && Skip(Skip(r, " "), " ") == rest
  {
    hide Tok, Skip;
    TokAt(n, " ", a + " " + rest);
    TokAt(a, " ", rest);
  }

  /** The six parts of an origin; the last may hold spaces. */
  lemma OriginRead(u: string, id: string, v: string, n: string, a: string, d: string)
    requires Free(u, " ") && Free(id, " ") && Free(v, " ") && Free(n, " ") && Free(a, " ")
    ensures (ParseOrigin(u + " " + (id + " " + (v + " " + (n + " " + (a + " " + d)))))
      == Origin(u, Atoi(id) % TWO64, Atoi(v) % TWO64, n, a, d))
  {
    hide Tok, Skip, Atoi;
    AfterWords(u, id, v + " " + (n + " " + (a + " " + d)));
    AfterWords(v, n, a + " " + d);
    TokAt(a, " ", d);
  }

  lemma TimingRead(start: string, stop: string)
    requires Free(start, " ")
    ensures ParseTiming(start + " " + stop) == Timing(Atoi(start) % TWO64, Atoi(stop) % TWO64)
    ensures ParseTiming(start) == Timing(Atoi(start) % TWO64, 0)
  {
    hide Tok, Skip, Atoi;
    NoNumber();
    TokAt(start, " ", stop);
    TokAll(start, " ");
  }

  /** What follows the clock of an rtpmap is kept as it is, and its number is the channels. */
  lemma RtpmapRead(pt: string, encoding: string, clock: string, params: string)
    requires Free(pt, " ") && Free(encoding, "/") && Free(clock, "/")
    ensures (ParseRtpmap(pt + " " + (encoding + "/" + (clock + "/" + params)))
      == Rtpmap(Atoi(pt) % 65536, encoding, Atoi(clock) % TWO32, Atoi(params) % 65536, params))
    ensures ParseRtpmap(pt + " " + (encoding + "/" + clock)) == Rtpmap(Atoi(pt) % 65536, encoding, Atoi(clock) % TWO32, 0, "")
    ensures ParseRtpmap(pt + " " + encoding) == Rtpmap(Atoi(pt) % 65536, encoding, 0, 0, "")
  {
    hide Tok, Skip, Atoi;
    NoNumber();
    NoTok("/");
    TokAt(pt, " ", encoding + "/" + (clock + "/" + params));
    TokAt(pt, " ", encoding + "/" + clock);
    TokAt(pt, " ", encoding);
    TokAt(encoding, "/", clock + "/" + params);
    TokAt(clock, "/", params);
    TokAt(encoding, "/", clock);
    TokAll(clock, "/");
    TokAll(encoding, "/");
  }

  lemma {:induction false} AttributeMeans(name: string, i: nat)
    requires i <= 18 && forall j: AttributeType :: j < i ==> AttributeName(j) != name
    ensures AttributePlace(name, i).Some? ==> AttributeName(AttributePlace(name, i).value) == name
    ensures AttributePlace(name, i) == None ==> forall k: AttributeType :: AttributeName(k) != name
    decreases 18 - i
  {
    hide AttributeName;
    if i < 18 && name != AttributeName(i) { AttributeMeans(name, i + 1); }
  }

  /** An attribute of a known name is that attribute, whatever its value, which only an rtpmap and
      an fmtp keep; an unknown name gives none. */
  lemma AttributeRead(name: string, w: string, value: string)
    requires Free(name, ":") && AllSpace(w) && (value != "" ==> !IsSpace(value[0]))
    ensures (var a := ParseAttribute(name + ":" + (w + value));
      && (a == None <==> forall k: AttributeType :: AttributeName(k) != name)
      && (a.Some? ==>
           if name == "rtpmap" then a.value == ParseRtpmap(value)
           else if name == "fmtp" then a.value == ParseFmtp(value)
           else a.value.Plain? && AttributeName(a.value.kind) == name))
    ensures ParseAttribute(name) == ParseAttribute(name + ":")
  {
    hide Tok, Skip, Ltrim, AttributeName, AttributePlace, ParseRtpmap, ParseFmtp;
    TokAt(name, ":", w + value);
    TokAll(name, ":");
    TokAt(name, ":", "");
    assert name + ":" + "" == name + ":";
    LtrimMeans(w, value);
    AttributeMeans(name, 0);
    RtpmapName();
    FmtpName();
    var k := AttributePlace(name, 0);
    if k.Some? {
      if name == "rtpmap" { AttributeNamesDiffer(k.value, RTPMAP); }
      if name == "fmtp" { AttributeNamesDiffer(k.value, FMTP); }
    }
  }

  // ------------------------------------------------------------------- media lines

  lemma {:induction false} RtrimMeans(t: string, w: string)
    requires AllSpace(w) && (t != "" ==> !IsSpace(t[|t| - 1]))
    ensures Rtrim(t + w) == t
  {
    hide IsSpace;
    if w == "" {
      assert t + w == t;
    } else {
      assert (t + w)[..|t + w| - 1] == t + w[..|w| - 1];
      RtrimMeans(t, w[..|w| - 1]);
    }
  }

  predicate Words(ts: seq<string>) {
    forall i :: 0 <= i < |ts| ==> ts[i] != "" && Free(ts[i], " ")
  }

  /** The payload types are the numbers of the words, and nothing after a double space is read. */
  lemma {:induction false} PtsRead(ts: seq<string>, rest: string)
    requires Words(ts) && (rest == "" || (ts != [] && |rest| > 1 && rest[..2] == "  "))
    ensures var pts := ParsePts(Joined(ts, " ") + rest); |pts| == |ts| && forall i :: 0 <= i < |ts| ==> pts[i] == Atoi(ts[i]) % 256
    decreases |ts|
  {
    hide Tok, Skip, Atoi, Free;
    if ts == [] {
      NoTok(" ");
    } else {
      var t := ts[0];
      var more := if |ts| == 1 then rest else " " + (Joined(ts[1..], " ") + rest);
      assert Joined(ts, " ") + rest == t + more;
      if more == "" {
        assert t + more == t;
        TokAll(t, " ");
        NoTok(" ");
      } else {
        assert more == " " + more[1..];
        assert t + more == t + " " + more[1..];
        TokAt(t, " ", more[1..]);
        if |ts| == 1 {
          assert more[1] == rest[..2][1] == ' ';
          SpaceFirst(more[1..]);
        } else {
          PtsRead(ts[1..], rest);
        }
      }
    }
  }

  lemma SpaceFirst(r: string)
    requires r != "" && r[0] == ' '
    ensures ParsePts(r) == []
  {
  }

  lemma {:induction false} MediaMeans(name: string, i: nat)
    requires i <= 5 && forall j: MediaType :: j < i ==> MediaName(j) != name
    ensures MediaPlace(name, i).Some? ==> MediaName(MediaPlace(name, i).value) == name
    ensures MediaPlace(name, i) == None ==> forall k: MediaType :: MediaName(k) != name
    decreases 5 - i
  {
    hide MediaName;
    if i < 5 && name != MediaName(i) { MediaMeans(name, i + 1); }
  }

  /** The port of a media line with or without a count; a slash may have nothing behind it, and
      what is behind a second one is passed over. */
  datatype Ports = OnePort(port: string) | ManyPorts(port: string, count: string) | LongPorts(port: string, count: string, more: string)

  predicate PortsClean(p: Ports) {
    && Free(p.port, " /")
    && match p
       case OnePort(_) => true
       case ManyPorts(_, c) => Free(c, " /")
       case LongPorts(_, c, m) => Free(c, " /") && Free(m, " ")
  }

  function PortsWritten(p: Ports): string {
    match p
    case OnePort(n) => n
    case ManyPorts(n, c) => n + "/" + c
    case LongPorts(n, c, m) => n + "/" + (c + "/" + m)
  }

  lemma PortsRead(p: Ports)
    requires PortsClean(p)
    ensures (var t := PortsWritten(p);
      Free(t, " ") && Tok(t, "/") == p.port && Tok(Skip(t, "/"), "/") == if p.OnePort? then "" else p.count)
  {
    hide Tok, Skip;
    FreeOf(p.port, " /", "/");
    match p {
      case OnePort(n) =>
        TokAll(n, "/");
        NoTok("/");
      case ManyPorts(n, c) =>
        FreeOf(c, " /", "/");
        TokAt(n, "/", c);
        TokAll(c, "/");
      case LongPorts(n, c, m) =>
        FreeOf(c, " /", "/");
        TokAt(n, "/", c + "/" + m);
        TokAt(c, "/", m);
    }
  }

  /** A media line: its type is none exactly if no type has the name, and white space around the
      payload types does not matter. */
  lemma MediaRead(name: string, p: Ports, protocol: string, before: string, ts: seq<string>, after: string)
    requires Free(name, " ") && PortsClean(p) && Free(protocol, " ") && AllSpace(before) && AllSpace(after)
    requires Words(ts) && forall i :: 0 <= i < |ts| ==> !IsSpace(ts[i][0]) && !IsSpace(ts[i][|ts[i]| - 1])
    ensures (var m := ParseMedia(name + " " + (PortsWritten(p) + " " + (protocol + " " + (before + Joined(ts, " ") + after))));
      && (m.mediaType == None <==> forall k: MediaType :: MediaName(k) != name)
      && (m.mediaType.Some? ==> MediaName(m.mediaType.value) == name)
      && m.port == Atoi(p.port) % 65536 && m.portCount == (if p.OnePort? then 0 else Atoi(p.count) % 65536)
      && m.protocol == protocol
      && |m.pts| == |ts| && forall i :: 0 <= i < |ts| ==> m.pts[i] == Atoi(ts[i]) % 256)
  {
    hide Tok, Skip, Atoi, MediaName, MediaPlace, ParsePts, Ltrim, Rtrim, IsSpace, PortsWritten, Free;
    NoNumber();
    PortsRead(p);
    var pts := Joined(ts, " ");
    var c := protocol + " " + (before + pts + after);
    AfterWords(name, PortsWritten(p), c);
    TokAt(protocol, " ", before + pts + after);
    MediaMeans(name, 0);
    assert Ltrim(Rtrim(before + pts + after)) == pts by { TrimmedAround(before, ts, after); }
    PtsRead(ts, "");
    assert pts + "" == pts;
  }

  lemma TrimmedAround(before: string, ts: seq<string>, after: string)
    requires AllSpace(before) && AllSpace(after)
    requires Words(ts) && forall i :: 0 <= i < |ts| ==> !IsSpace(ts[i][0]) && !IsSpace(ts[i][|ts[i]| - 1])
    ensures Ltrim(Rtrim(before + Joined(ts, " ") + after)) == Joined(ts, " ")
  {
    hide Ltrim, Rtrim, IsSpace, Free;
    var pts := Joined(ts, " ");
    if ts == [] {
      assert before + pts + after == "" + (before + after) && AllSpace(before + after);
      RtrimMeans("", before + after);
      LtrimMeans("", "");
      assert "" + "" == "";
    } else {
      JoinedEnds(ts);
      RtrimMeans(before + pts, after);
      LtrimMeans(before, pts);
    }
  }

  lemma {:induction false} JoinedEnds(ts: seq<string>)
    requires ts != [] && Words(ts)
    ensures var t := Joined(ts, " "); var z := ts[|ts| - 1]; t != "" && t[0] == ts[0][0] && t[|t| - 1] == z[|z| - 1]
    decreases |ts|
  {
    hide Free;
    if |ts| > 1 { JoinedEnds(ts[1..]); }
  }

  /** Printed ports come back with the count cut to the buffer of nine characters: the port always
      does, and the count exactly if it is not 1 and both have at most eight digits. */
  lemma PortsSurvive(m: MediaDesc)
    requires m.port < 65536 && m.portCount < 65536
    ensures (var t := PortText(m); var count := Tok(Skip(t, "/"), "/"); var over := |Digits(m.port)| + |Digits(m.portCount)| - 8;
      && Atoi(Tok(t, "/")) == m.port
      && Atoi(count) == (if m.portCount <= 1 then 0 else if over <= 0 then m.portCount else if over == 1 then m.portCount / 10 else m.portCount / 10 / 10)
      && (Atoi(count) == m.portCount <==> m.portCount != 1 && (m.portCount > 1 ==> over <= 0)))
  {
    hide Tok, Skip, Atoi, Digits;
    var d, c := Digits(m.port), Digits(m.portCount);
    SmallPowers();
    DigitsShort(m.port, 5);
    DigitsShort(m.portCount, 5);
    NumberClean(m.port);
    AtoiDigits(m.port);
    if m.portCount <= 1 {
      assert PortText(m) == d;
      TokAll(d, "/");
      NoTok("/");
      NoNumber();
    } else {
      var over := |d| + |c| - 8;
      var n := if over <= 0 then m.portCount else if over == 1 then m.portCount / 10 else m.portCount / 10 / 10;
      assert |d| > 0 && Cut(d + "/" + c, 9) == d + "/" + Digits(n) by { CountCut(m.port, m.portCount); }
      TokAt(d, "/", Digits(n));
      NumberClean(n);
      TokAll(Digits(n), "/");
      AtoiDigits(n);
    }
  }

  lemma CountCut(port: nat, count: nat)
    requires port < 65536 && count < 65536
    ensures var d, c := Digits(port), Digits(count); var over := |d| + |c| - 8;
      d != "" && Cut(d + "/" + c, 9) == d + "/" + Digits(if over <= 0 then count else if over == 1 then count / 10 else count / 10 / 10)
  {
    hide Digits;
    SmallPowers();
    DigitsShort(port, 5);
    DigitsShort(count, 5);
    var d, c := Digits(port), Digits(count);
    var over := |d| + |c| - 8;
    if over > 0 {
      DigitsFront(count);
      assert |c| >= 4;
      if over == 2 { DigitsFront(count / 10); }
      assert Cut(d + "/" + c, 9) == d + "/" + c[..8 - |d|];
    }
  }

  lemma DigitsFront(n: nat)
    ensures |Digits(n)| > 1 ==> n >= 10 && Digits(n / 10) == Digits(n)[..|Digits(n)| - 1]
  {
    hide Power10;
  }

  // ------------------------------------------------------------------- whole lines

  const PARSED: string := "vosiuepctam"

  /** A line is understood exactly if its name is a letter that has a parser; bandwidth, repeat
      times, time zones and encryption keys have none. */
  lemma LineUnderstood(line: string)
    ensures ParseLine(line).Some? <==> |Tok(line, "=")| == 1 && Tok(line, "=")[0] in PARSED
  {
    hide Tok, Skip, Ltrim, Atoi, ParseOrigin, ParseConnection, ParseTiming, ParseAttribute, ParseMedia, Cut;
    var name := Tok(line, "=");
    if |name| == 1 && name[0] in PARSED { assert name == [name[0]]; }
  }

  /** A line: its letter, white space, and the value for its parser. */
  lemma LetterRead(letter: char, w: string, value: string)
    requires letter != '=' && AllSpace(w) && (value != "" ==> !IsSpace(value[0]))
    ensures (var l := ParseLine([letter] + "=" + (w + value));
      && (letter == 'v' ==> l == Some(VersionLine(Atoi(value) % TWO32))) && (letter == 'o' ==> l == Some(OriginLine(ParseOrigin(value))))
      && (letter == 'c' ==> l == Some(ConnectionLine(ParseConnection(value)))) && (letter == 't' ==> l == Some(TimingLine(ParseTiming(value))))
      && (letter == 'a' ==> l == Some(AttributeLine(ParseAttribute(value)))) && (letter == 'm' ==> l == Some(MediaLine(ParseMedia(value))))
      && (letter in "siuep" ==> l == Some(StringLine(letter, Cut(value, 399)))))
  {
    hide Tok, Skip, Ltrim, Atoi, ParseOrigin, ParseConnection, ParseTiming, ParseAttribute, ParseMedia, Cut;
    assert Free([letter], "=");
    TokAt([letter], "=", w + value);
    LtrimMeans(w, value);
  }

  /** A string line comes back cut to what its printed line has room for, so it survives exactly
      if its line does. */
  lemma StringSurvives(letter: char, d: string)
    requires letter in "siuep" && TextOk(d) && |d| <= 399
    ensures ParseLine(PrintLine(StringLine(letter, d))) == Some(StringLine(letter, Cut(d, 325)))
    ensures ParseLine(PrintLine(StringLine(letter, d))) == Some(StringLine(letter, d)) <==> |d| <= 325
  {
    hide ParseLine, Free;
    var e := Cut(d, 325);
    assert Cut([letter] + "=" + d, 327) == [letter] + "=" + e;
    assert Free(e, CRLF) by { FreeFront(d, e); }
    LineReadBack(StringLine(letter, e));
  }

  /** A printed origin or media line is the beginning of its text, as much of it as the line's
      buffer holds; the other lines are within theirs too. */
  lemma PrintedWithin(l: Line)
    requires Known(l)
    ensures l.VersionLine? ==> |PrintLine(l)| <= 19
    ensures l.TimingLine? ==> |PrintLine(l)| <= 49
    ensures l.ConnectionLine? ==> |PrintLine(l)| <= 63
    ensures l.AttributeLine? ==> |PrintLine(l)| <= if !l.attribute.value.Plain? then 97 else if l.attribute.value.kind == SENDONLY then 13 else 49
    ensures l.OriginLine? ==> PrintLine(l) == Cut("o=" + OriginText(l.origin), 231)
    ensures l.MediaLine? ==>
      (var m := l.media; PrintLine(l) == Cut("m=" + (MediaName(m.mediaType.value) + " " + (PortText(m) + " " + (m.protocol + " " + PtsText(m.pts)))), 79))
  {
    hide Digits, MediaName, AttributeName, PtsText, PortText, Cut;
    if l.OriginLine? {
      var o := l.origin;
      var a, b := Digits(o.sessionId), Digits(o.sessionVersion);
      assert "o=" + o.username + " " + a + " " + b + " " + o.nettype + " " + o.addrtype + " " + o.address
          == "o=" + (o.username + " " + (a + " " + (b + " " + (o.nettype + " " + (o.addrtype + " " + o.address)))));
    } else if l.MediaLine? {
      var m := l.media;
      var a, b, c := MediaName(m.mediaType.value), PortText(m), PtsText(m.pts);
      assert "m=" + a + " " + b + " " + m.protocol + " " + c == "m=" + (a + " " + (b + " " + (m.protocol + " " + c)));
    }
  }

  // -------------------------------------------------------------- whole descriptions

  lemma {:induction false} UnderstoodJoined(a: seq<string>, b: seq<string>)
    ensures Understood(a + b) == Understood(a) + Understood(b)
  {
    hide ParseLine, Understood;
    if a == [] {
      NothingUnderstood();
      assert a + b == b;
    } else {
      UnderstoodJoined(a[1..], b);
      UnderstoodStep(a[0], a[1..]);
      UnderstoodStep(a[0], a[1..] + b);
      assert a == [a[0]] + a[1..] && a + b == [a[0]] + (a[1..] + b);
    }
  }

  lemma NothingUnderstood()
    ensures Understood([]) == []
  {
  }

  lemma UnderstoodOne(text: string)
    ensures Understood([text]) == if ParseLine(text).Some? then [ParseLine(text).value] else []
  {
    hide ParseLine;
    assert [text][1..] == [] && Understood([]) == [];
  }

  /** A description by its lines, and whatever follows the empty line. */
  function Description(ts: seq<string>, rest: string): string {
    Terminated(ts) + CRLF + rest
  }

  /** It is the session that its understood lines build. */
  lemma DescriptionRead(ts: seq<string>, rest: string)
    requires LinesOk(ts)
    ensures ParseSdp(Description(ts, rest)) == Build(EMPTY, Understood(ts))
  {
    hide Build, Understood, Lines, LinesOk;
    var text := Description(ts, rest);
    assert text[0..] == text;
    LinesRead(text, 0, ts, rest);
  }

  /** The texts of a connection line without a ttl. */
  function ConnectionText(n: string, a: string, d: string): string {
    "c=" + (n + " " + (a + " " + d))
  }

  predicate ConnectionWords(n: string, a: string, d: string) {
    Word(n) && Free(a, " ") && Free(d, "/")
  }

  lemma ConnectionValueRead(input: string, n: string, a: string, d: string)
    requires ConnectionWords(n, a, d) && "c=" + input == ConnectionText(n, a, d)
    ensures ParseConnection(input) == Connection(n, a, d, 0)
  {
    hide ParseConnection, Atoi;
    assert ("c=" + input)[2..] == ConnectionText(n, a, d)[2..];
    assert ConnectionText(n, a, d)[2..] == n + " " + (a + " " + d);
    SdpText.Clean(n);
    ConnectionRead(n, a, d, "", "");
  }

  lemma ConnectionLineRead(n: string, a: string, d: string)
    requires ConnectionWords(n, a, d)
    ensures ParseLine(ConnectionText(n, a, d)) == Some(ConnectionLine(Connection(n, a, d, 0)))
  {
    hide ParseConnection, ParseLine, Atoi;
    var value := n + " " + (a + " " + d);
    SdpText.Clean(n);
    assert value[0] == n[0];
    ConnectionRead(n, a, d, "", "");
    LetterRead('c', "", value);
    assert ['c'] + "=" + ("" + value) == ConnectionText(n, a, d);
  }

  /** No line is a media line, or none is a connection line either. */
  predicate Without(ts: seq<string>, connections: bool) {
    forall l <- Understood(ts) :: !l.MediaLine? && (connections ==> !l.ConnectionLine?)
  }

  /** The lines of the next section, if there is one. */
  predicate NextSection(ts: seq<string>) {
    Understood(ts) == [] || Understood(ts)[0].MediaLine?
  }

  lemma {:induction false} LastAmong(before: seq<Line>, l: Line, after: seq<Line>)
    requires l.ConnectionLine? && forall x <- after :: !x.ConnectionLine?
    ensures LastConnection(before + [l] + after) == Some(l.connection)
    decreases |after|
  {
    var all := before + [l] + after;
    if after == [] {
      assert all == before + [l];
    } else {
      var fore := after[..|after| - 1];
      LastAmong(before, l, fore);
      assert all[..|all| - 1] == before + [l] + fore && all[|all| - 1] == after[|after| - 1];
    }
  }

  /** A connection line without a ttl among the session's own lines, the last of its kind there,
      is the session's connection. */
  lemma ConnectionOfSession(before: seq<string>, n: string, a: string, d: string, after: seq<string>, sections: seq<string>, rest: string)
    requires ConnectionWords(n, a, d) && LinesOk(before + [ConnectionText(n, a, d)] + after + sections)
    requires Without(before, false) && Without(after, true) && NextSection(sections)
    ensures ParseSdp(Description(before + [ConnectionText(n, a, d)] + after + sections, rest)).connection == Some(Connection(n, a, d, 0))
  {
    hide ParseLine, Build, Understood, LinesOk, SectionLines, LastConnection, ParseSdp;
    var t := ConnectionText(n, a, d);
    var head := before + [t] + after;
    DescriptionRead(head + sections, rest);
    ConnectionLineRead(n, a, d);
    var l := ConnectionLine(Connection(n, a, d, 0));
    HeadLinesAre(before, t, after, l);
    UnderstoodJoined(head, sections);
    var own := Understood(before) + [l] + Understood(after);
    var cs := SectionsOnly(Understood(sections));
    Scope(own, cs);
    LastAmong(Understood(before), l, Understood(after));
  }

  lemma HeadLinesAre(before: seq<string>, t: string, after: seq<string>, l: Line)
    requires ParseLine(t) == Some(l)
    ensures Understood(before + [t] + after) == Understood(before) + [l] + Understood(after)
  {
    hide ParseLine, Understood;
    UnderstoodJoined(before + [t], after);
    UnderstoodJoined(before, [t]);
    UnderstoodOne(t);
  }

  /** Lines that begin with a media line are sections. */
  lemma SectionsOnly(ls: seq<Line>) returns (cs: seq<Section>)
    requires ls == [] || ls[0].MediaLine?
    ensures ls == SectionLines(cs) && forall i :: 0 <= i < |cs| ==> NoMedia(cs[i].lines)
  {
    hide SectionLines;
    var before;
    before, cs := Divided(ls);
    assert [] + SectionLines(cs) == SectionLines(cs);
  }

  lemma {:induction false} SectionsJoined(a: seq<Section>, b: seq<Section>)
    ensures SectionLines(a + b) == SectionLines(a) + SectionLines(b)
  {
    if a == [] {
      assert a + b == b;
    } else {
      SectionsJoined(a[1..], b);
      assert (a + b)[1..] == a[1..] + b;
      LinesAssoc([MediaLine(a[0].desc)], a[0].lines, SectionLines(a[1..]), SectionLines(b));
    }
  }

  /** The same of a media line and the lines up to the next: the line is the connection of that
      media, which has as many before it as the lines before it describe. */
  lemma ConnectionOfMedia(front: seq<string>, media: string, desc: MediaDesc, before: seq<string>, n: string, a: string, d: string,
      after: seq<string>, sections: seq<string>, rest: string)
    requires ConnectionWords(n, a, d) && LinesOk(front + [media] + (before + [ConnectionText(n, a, d)] + after) + sections)
    requires ParseLine(media) == Some(MediaLine(desc)) && Without(before, false) && Without(after, true) && NextSection(sections)
    ensures (var s := ParseSdp(Description(front + [media] + (before + [ConnectionText(n, a, d)] + after) + sections, rest));
      var k := |Build(EMPTY, Understood(front)).media|;
      k < |s.media| && s.media[k].desc == desc && s.media[k].connection == Some(Connection(n, a, d, 0)))
  {
    hide ParseLine, Build, Understood, LinesOk, SectionLines, LastConnection, ParseSdp, LastString, AttributesIn;
    var t := ConnectionText(n, a, d);
    var inner := before + [t] + after;
    ConnectionLineRead(n, a, d);
    var l := ConnectionLine(Connection(n, a, d, 0));
    HeadLinesAre(before, t, after, l);
    HeadLinesAre(front, media, inner, MediaLine(desc));
    UnderstoodJoined(front + [media] + inner, sections);
    DescriptionRead(front + [media] + inner + sections, rest);
    var own := Understood(before) + [l] + Understood(after);
    var first, cs0 := ScopeOfAny(Understood(front));
    var cs1 := SectionsOnly(Understood(sections));
    var c := Section(desc, own);
    SectionsJoined([c], cs1);
    SectionsJoined(cs0, [c] + cs1);
    OneSection(c);
    var cs := cs0 + ([c] + cs1);
    assert Understood(front) + [MediaLine(desc)] + own + Understood(sections) == first + SectionLines(cs);
    assert NoMedia(own);
    forall i | 0 <= i < |cs| ensures NoMedia(cs[i].lines) {
      assert cs[i] == if i < |cs0| then cs0[i] else if i == |cs0| then c else cs1[i - |cs0| - 1];
    }
    Scope(first, cs);
    LastAmong(Understood(before), l, Understood(after));
    assert cs[|cs0|] == c;
  }

  lemma LinesAssoc(l: seq<Line>, ls: seq<Line>, x: seq<Line>, y: seq<Line>)
    ensures l + (ls + (x + y)) == l + (ls + x) + y
  {
  }

  lemma OneSection(c: Section)
    ensures SectionLines([c]) == [MediaLine(c.desc)] + c.lines
  {
    assert [c][1..] == [] && SectionLines([]) == [];
    assert c.lines + [] == c.lines;
  }
}
