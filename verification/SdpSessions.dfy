/** Whole SDP descriptions as values (src/sdp.cpp): what the line loop builds, what the
    printer puts out, the scope of a line, and the normal form. */
module SdpSessions {
  import opened Tokens
  import opened SipTables
  import opened HeaderText
  import opened SdpText

  datatype Media = Media(desc: MediaDesc, title: Option<string>, connection: Option<Connection>, attributes: seq<Option<Attribute>>)

  datatype Session = Session(
    version: Option<nat>, origin: Option<Origin>, name: Option<string>, info: Option<string>, uri: Option<string>,
    email: Option<string>, phone: Option<string>, connection: Option<Connection>, timing: Option<Timing>,
    attributes: seq<Option<Attribute>>, media: seq<Media>)

  const EMPTY: Session := Session(None, None, None, None, None, None, None, None, None, [], [])

  // ---------------------------------------------------------------------- building

  function PlaceString(s: Session, c: char, d: string): Session {
    if c == 's' then s.(name := Some(d))
    else if c == 'i' then s.(info := Some(d))
    else if c == 'u' then s.(uri := Some(d))
    else if c == 'e' then s.(email := Some(d))
    else s.(phone := Some(d))
  }

  /** What a line does to a media description. */
  function PlaceInMedia(m: Media, l: Line): Media {
    match l
    case StringLine(c, d) => if c == 'i' then m.(title := Some(d)) else m
    case ConnectionLine(c) => m.(connection := Some(c))
    case AttributeLine(a) => m.(attributes := m.attributes + [a])
    case _ => m
  }

  /** The lines that belong to the latest media, when there is one. */
  predicate Scoped(l: Line) {
    l.ConnectionLine? || l.AttributeLine? || (l.StringLine? && l.letter == 'i')
  }

  /** The switch of the line loop. */
  function Place(s: Session, l: Line): Session {
    if s.media != [] && Scoped(l) then
      s.(media := s.media[..|s.media| - 1] + [PlaceInMedia(s.media[|s.media| - 1], l)])
    else
      match l
      case VersionLine(n) => s.(version := Some(n))
      case OriginLine(o) => s.(origin := Some(o))
      case StringLine(c, d) => PlaceString(s, c, d)
      case ConnectionLine(c) => s.(connection := Some(c))
      case TimingLine(t) => s.(timing := Some(t))
      case AttributeLine(a) => s.(attributes := s.attributes + [a])
      case MediaLine(m) => s.(media := s.media + [Media(m, None, None, [])])
  }

  function Build(s: Session, ls: seq<Line>): Session
    decreases |ls|
  {
    if ls == [] then s else Build(Place(s, ls[0]), ls[1..])
  }

  function Understood(texts: seq<string>): seq<Line> {
    if texts == [] then []
    else
      var l := ParseLine(texts[0]);
      (if l.Some? then [l.value] else []) + Understood(texts[1..])
  }

  lemma UnderstoodStep(text: string, rest: seq<string>)
    ensures Understood([text] + rest) == (if ParseLine(text).Some? then [ParseLine(text).value] else []) + Understood(rest)
  {
    hide ParseLine;
    assert ([text] + rest)[1..] == rest;
  }

  function ParseSdp(text: string): Session {
    Build(EMPTY, Understood(Lines(text, At(0)).0))
  }

  // ---------------------------------------------------------------------- printing

  function VersionLines(v: Option<nat>): seq<Line> {
    if v.Some? then [VersionLine(v.value)] else []
  }

  function OriginLines(o: Option<Origin>): seq<Line> {
    if o.Some? then [OriginLine(o.value)] else []
  }

  function StringLines(c: char, d: Option<string>): seq<Line> {
    if d.Some? then [StringLine(c, d.value)] else []
  }

  function ConnectionLines(c: Option<Connection>): seq<Line> {
    if c.Some? then [ConnectionLine(c.value)] else []
  }

  function TimingLines(t: Option<Timing>): seq<Line> {
    if t.Some? then [TimingLine(t.value)] else []
  }

  function AttributeLines(attributes: seq<Option<Attribute>>): seq<Line> {
    if attributes == [] then [] else [AttributeLine(attributes[0])] + AttributeLines(attributes[1..])
  }

  function MediaLines(m: Media): seq<Line> {
    [MediaLine(m.desc)] + (StringLines('i', m.title) + (ConnectionLines(m.connection) + AttributeLines(m.attributes)))
  }

  function AllMediaLines(ms: seq<Media>): seq<Line> {
    if ms == [] then [] else MediaLines(ms[0]) + AllMediaLines(ms[1..])
  }

  function HeadLines(s: Session): seq<Line> {
    VersionLines(s.version) + (OriginLines(s.origin) + (StringLines('s', s.name) + (StringLines('i', s.info)
      + (StringLines('u', s.uri) + (StringLines('e', s.email) + (StringLines('p', s.phone)
      + (ConnectionLines(s.connection) + TimingLines(s.timing))))))))
  }

  /** The lines of a session in the order of the printer. */
  function SessionLines(s: Session): seq<Line> {
    HeadLines(s) + (AttributeLines(s.attributes) + AllMediaLines(s.media))
  }

  predicate AllKnown(ls: seq<Line>) {
    forall i :: 0 <= i < |ls| ==> Known(ls[i])
  }

  function LinesText(ls: seq<Line>): string
    requires AllKnown(ls)
  {
    if ls == [] then "" else PrintLine(ls[0]) + CRLF + LinesText(ls[1..])
  }

  function PrintSdp(s: Session): string
    requires AllKnown(SessionLines(s))
  {
    LinesText(SessionLines(s)) + CRLF
  }

  // ------------------------------------------------ the lines of a session rebuild it

  lemma {:induction false} BuildOn(s: Session, a: seq<Line>, b: seq<Line>)
    ensures Build(s, a + b) == Build(Build(s, a), b)
    decreases |a|
  {
    hide Place;
    if a == [] {
      assert a + b == b;
    } else {
      assert (a + b)[1..] == a[1..] + b;
      BuildOn(Place(s, a[0]), a[1..], b);
    }
  }

  lemma BuildStep(s: Session, l: Line, ls: seq<Line>)
    ensures Build(s, [l] + ls) == Build(Place(s, l), ls)
  {
    hide Place;
    assert ([l] + ls)[1..] == ls;
  }

  lemma AttributesStep(attributes: seq<Option<Attribute>>)
    requires attributes != []
    ensures AttributeLines(attributes) == [AttributeLine(attributes[0])] + AttributeLines(attributes[1..])
  {
  }

  lemma BuildOne(s: Session, l: Line)
    ensures Build(s, [l]) == Place(s, l)
  {
    hide Place;
    assert Build(Place(s, l), []) == Place(s, l);
  }

  lemma HeadBuilds(s: Session)
    ensures Build(EMPTY, HeadLines(s)) == s.(attributes := [], media := [])
  {
    hide Build, Place;
    var h := ConnectionLines(s.connection) + TimingLines(s.timing);
    var f := StringLines('e', s.email) + (StringLines('p', s.phone) + h);
    var e := StringLines('u', s.uri) + f;
    var c := StringLines('s', s.name) + (StringLines('i', s.info) + e);
    var s4 := Session(s.version, s.origin, s.name, s.info, None, None, None, None, None, [], []);
    FirstHalf(s, e);
    assert HeadLines(s) == VersionLines(s.version) + (OriginLines(s.origin) + c);
    SecondHalf(s);
  }

  lemma FirstHalf(s: Session, rest: seq<Line>)
    ensures (Build(EMPTY, VersionLines(s.version) + (OriginLines(s.origin) + (StringLines('s', s.name) + (StringLines('i', s.info) + rest))))
      == Build(Session(s.version, s.origin, s.name, s.info, None, None, None, None, None, [], []), rest))
  {
    hide Build;
    var d := StringLines('i', s.info) + rest;
    var c := StringLines('s', s.name) + d;
    var b := OriginLines(s.origin) + c;
    var s1 := EMPTY.(version := s.version);
    OptionalThen(EMPTY, VersionLines(s.version), b, s1);
    var s2 := s1.(origin := s.origin);
    OptionalThen(s1, OriginLines(s.origin), c, s2);
    var s3 := s2.(name := s.name);
    OptionalThen(s2, StringLines('s', s.name), d, s3);
    OptionalThen(s3, StringLines('i', s.info), rest, s3.(info := s.info));
  }

  lemma SecondHalf(s: Session)
    ensures (Build(Session(s.version, s.origin, s.name, s.info, None, None, None, None, None, [], []),
          StringLines('u', s.uri) + (StringLines('e', s.email) + (StringLines('p', s.phone) + (ConnectionLines(s.connection) + TimingLines(s.timing)))))
      == s.(attributes := [], media := []))
  {
    hide Build;
    var s4 := Session(s.version, s.origin, s.name, s.info, None, None, None, None, None, [], []);
    var i := TimingLines(s.timing);
    var h := ConnectionLines(s.connection) + i;
    var g := StringLines('p', s.phone) + h;
    var f := StringLines('e', s.email) + g;
    var s5 := s4.(uri := s.uri);
    OptionalThen(s4, StringLines('u', s.uri), f, s5);
    var s6 := s5.(email := s.email);
    OptionalThen(s5, StringLines('e', s.email), g, s6);
    var s7 := s6.(phone := s.phone);
    OptionalThen(s6, StringLines('p', s.phone), h, s7);
    var s8 := s7.(connection := s.connection);
    OptionalThen(s7, ConnectionLines(s.connection), i, s8);
    Optional(s8, i, s8.(timing := s.timing));
  }

  lemma OptionalThen(s: Session, ls: seq<Line>, rest: seq<Line>, t: Session)
    requires if ls == [] then t == s else |ls| == 1 && t == Place(s, ls[0])
    ensures Build(s, ls + rest) == Build(t, rest)
  {
    hide Place, Build;
    BuildOn(s, ls, rest);
    Optional(s, ls, t);
  }

  /** A line that may be missing. */
  lemma Optional(s: Session, ls: seq<Line>, t: Session)
    requires if ls == [] then t == s else |ls| == 1 && t == Place(s, ls[0])
    ensures Build(s, ls) == t
  {
    hide Place;
    if ls != [] {
      assert ls == [ls[0]];
      BuildOne(s, ls[0]);
    }
  }

  lemma {:induction false} AttributesBuild(s: Session, attributes: seq<Option<Attribute>>)
    requires s.media == []
    ensures Build(s, AttributeLines(attributes)) == s.(attributes := s.attributes + attributes)
    decreases |attributes|
  {
    hide Build, AttributeLines;
    if attributes == [] {
      NoAttributeLines();
      BuildNothing(s);
      assert s.attributes + attributes == s.attributes;
    } else {
      var l := AttributeLine(attributes[0]);
      AttributesStep(attributes);
      BuildStep(s, l, AttributeLines(attributes[1..]));
      AttributesBuild(Place(s, l), attributes[1..]);
      assert s.attributes + [attributes[0]] + attributes[1..] == s.attributes + attributes;
    }
  }

  lemma NoAttributeLines()
    ensures AttributeLines([]) == []
  {
  }

  /** A line that belongs to the latest media. */
  lemma PlaceLast(s: Session, ms: seq<Media>, m: Media, l: Line)
    requires Scoped(l)
    ensures Place(s.(media := ms + [m]), l) == s.(media := ms + [PlaceInMedia(m, l)])
  {
    hide PlaceInMedia, Scoped;
    assert (ms + [m])[..|ms|] == ms;
  }

  lemma {:induction false} MediaAttributesBuild(s: Session, ms: seq<Media>, m: Media, attributes: seq<Option<Attribute>>)
    ensures (Build(s.(media := ms + [m]), AttributeLines(attributes))
      == s.(media := ms + [m.(attributes := m.attributes + attributes)]))
    decreases |attributes|
  {
    hide Place, Build, AttributeLines;
    if attributes == [] {
      NoAttributeLines();
      BuildNothing(s.(media := ms + [m]));
      assert m.attributes + attributes == m.attributes;
    } else {
      var l := AttributeLine(attributes[0]);
      AttributesStep(attributes);
      BuildStep(s.(media := ms + [m]), l, AttributeLines(attributes[1..]));
      PlaceLast(s, ms, m, l);
      MediaAttributesBuild(s, ms, PlaceInMedia(m, l), attributes[1..]);
      assert m.attributes + [attributes[0]] + attributes[1..] == m.attributes + attributes;
    }
  }

  lemma MediaBuilds(s: Session, m: Media)
    ensures Build(s, MediaLines(m)) == s.(media := s.media + [m])
  {
    hide Build, Place;
    var bare := Media(m.desc, None, None, []);
    var titled := bare.(title := m.title);
    var connected := titled.(connection := m.connection);
    var c := AttributeLines(m.attributes);
    var b := ConnectionLines(m.connection) + c;
    var a := StringLines('i', m.title) + b;
    BuildOn(s, [MediaLine(m.desc)], a);
    BuildOne(s, MediaLine(m.desc));
    PlaceMedia(s, m.desc);
    BuildOn(s.(media := s.media + [bare]), StringLines('i', m.title), b);
    if m.title.Some? { PlaceLast(s, s.media, bare, StringLine('i', m.title.value)); }
    Optional(s.(media := s.media + [bare]), StringLines('i', m.title), s.(media := s.media + [titled]));
    BuildOn(s.(media := s.media + [titled]), ConnectionLines(m.connection), c);
    if m.connection.Some? { PlaceLast(s, s.media, titled, ConnectionLine(m.connection.value)); }
    Optional(s.(media := s.media + [titled]), ConnectionLines(m.connection), s.(media := s.media + [connected]));
    MediaAttributesBuild(s, s.media, connected, m.attributes);
    assert [] + m.attributes == m.attributes;
  }

  lemma PlaceMedia(s: Session, d: MediaDesc)
    ensures Place(s, MediaLine(d)) == s.(media := s.media + [Media(d, None, None, [])])
  {
  }

  lemma {:induction false} AllMediaBuild(s: Session, ms: seq<Media>)
    ensures Build(s, AllMediaLines(ms)) == s.(media := s.media + ms)
    decreases |ms|
  {
    hide Build, MediaLines;
    if ms == [] {
      assert Build(s, []) == s by { BuildNothing(s); }
      assert s.media + ms == s.media;
    } else {
      BuildOn(s, MediaLines(ms[0]), AllMediaLines(ms[1..]));
      MediaBuilds(s, ms[0]);
      AllMediaBuild(s.(media := s.media + [ms[0]]), ms[1..]);
      assert s.media + [ms[0]] + ms[1..] == s.media + ms;
    }
  }

  lemma BuildNothing(s: Session)
    ensures Build(s, []) == s
  {
  }

  /** The line loop, given the lines of a session in the printer's order, builds that session. */
  lemma LinesBuild(s: Session)
    ensures Build(EMPTY, SessionLines(s)) == s
  {
    hide Build, HeadLines, AttributeLines, AllMediaLines;
    var h := s.(attributes := [], media := []);
    BuildOn(EMPTY, HeadLines(s), AttributeLines(s.attributes) + AllMediaLines(s.media));
    HeadBuilds(s);
    BuildOn(h, AttributeLines(s.attributes), AllMediaLines(s.media));
    AttributesBuild(h, s.attributes);
    assert [] + s.attributes == s.attributes && [] + s.media == s.media;
    AllMediaBuild(s.(media := []), s.media);
  }

  // ----------------------------------------------------------------- the normal form

  function NormalLines(ls: seq<Line>): (r: seq<Line>)
    ensures |r| == |ls|
  {
    if ls == [] then [] else [NormalLine(ls[0])] + NormalLines(ls[1..])
  }

  function NormalAttributes(attributes: seq<Option<Attribute>>): seq<Option<Attribute>> {
    if attributes == [] then []
    else
      [if attributes[0].Some? then Some(NormalAttribute(attributes[0].value)) else None] + NormalAttributes(attributes[1..])
  }

  function NormalConnections(c: Option<Connection>): Option<Connection> {
    if c.Some? then Some(NormalConnection(c.value)) else None
  }

  function NormalMedias(ms: seq<Media>): seq<Media> {
    if ms == [] then []
    else
      [Media(SdpText.NormalMedia(ms[0].desc), ms[0].title, NormalConnections(ms[0].connection), NormalAttributes(ms[0].attributes))]
        + NormalMedias(ms[1..])
  }

  /** A session with every line in its normal form. */
  function Normal(s: Session): Session {
    s.(connection := NormalConnections(s.connection), attributes := NormalAttributes(s.attributes), media := NormalMedias(s.media))
  }

  /** The normal form has as many attributes and media. */
  lemma {:induction false} NormalAttributesSize(attributes: seq<Option<Attribute>>)
    ensures |NormalAttributes(attributes)| == |attributes|
  {
    if attributes != [] { NormalAttributesSize(attributes[1..]); }
  }

  lemma {:induction false} NormalMediasSize(ms: seq<Media>)
    ensures |NormalMedias(ms)| == |ms|
    ensures forall i :: 0 <= i < |ms| ==> |NormalMedias(ms)[i].attributes| == |ms[i].attributes|
  {
    if ms != [] {
      NormalAttributesSize(ms[0].attributes);
      NormalMediasSize(ms[1..]);
    }
  }

  lemma NormalStep(l: Line, ls: seq<Line>)
    ensures NormalLines([l] + ls) == [NormalLine(l)] + NormalLines(ls)
  {
    hide NormalLine;
    assert ([l] + ls)[1..] == ls;
  }

  lemma {:induction false} NormalJoined(a: seq<Line>, b: seq<Line>)
    ensures NormalLines(a + b) == NormalLines(a) + NormalLines(b)
  {
    hide NormalLine, NormalLines;
    if a == [] {
      assert a + b == b;
      assert NormalLines([]) == [];
    } else {
      NormalJoined(a[1..], b);
      NormalStep(a[0], a[1..]);
      NormalStep(a[0], a[1..] + b);
      assert a == [a[0]] + a[1..] && a + b == [a[0]] + (a[1..] + b);
    }
  }

  lemma {:induction false} NormalOfAttributes(attributes: seq<Option<Attribute>>)
    ensures NormalLines(AttributeLines(attributes)) == AttributeLines(NormalAttributes(attributes))
  {
    hide NormalAttribute;
    if attributes != [] {
      NormalOfAttributes(attributes[1..]);
      assert AttributeLines(attributes)[1..] == AttributeLines(attributes[1..]);
      var n := NormalAttributes(attributes);
      assert n[1..] == NormalAttributes(attributes[1..]);
    }
  }

  /** A line that may be missing. */
  lemma NormalOfOne(ls: seq<Line>)
    requires |ls| <= 1
    ensures NormalLines(ls) == if ls == [] then [] else [NormalLine(ls[0])]
  {
    hide NormalLine;
    if ls != [] { assert NormalLines(ls[1..]) == []; }
  }

  lemma {:induction false} NormalOfMedias(ms: seq<Media>)
    ensures NormalLines(AllMediaLines(ms)) == AllMediaLines(NormalMedias(ms))
  {
    hide NormalLines, AttributeLines, NormalAttributes, SdpText.NormalMedia, NormalConnection;
    if ms == [] {
      NormalOfOne([]);
    } else {
      var m := ms[0];
      NormalOfMedias(ms[1..]);
      NormalJoined(MediaLines(m), AllMediaLines(ms[1..]));
      NormalJoined([MediaLine(m.desc)], StringLines('i', m.title) + (ConnectionLines(m.connection) + AttributeLines(m.attributes)));
      NormalJoined(StringLines('i', m.title), ConnectionLines(m.connection) + AttributeLines(m.attributes));
      NormalJoined(ConnectionLines(m.connection), AttributeLines(m.attributes));
      NormalOfOne([MediaLine(m.desc)]);
      NormalOfOne(StringLines('i', m.title));
      NormalOfOne(ConnectionLines(m.connection));
      NormalOfAttributes(m.attributes);
      assert NormalMedias(ms)[1..] == NormalMedias(ms[1..]);
    }
  }

  lemma StringKept(c: char, d: Option<string>, rest: seq<Line>)
    ensures NormalLines(StringLines(c, d) + rest) == StringLines(c, d) + NormalLines(rest)
  {
    hide NormalLines;
    NormalJoined(StringLines(c, d), rest);
    NormalOfOne(StringLines(c, d));
  }

  lemma NormalOfHead(s: Session)
    ensures NormalLines(HeadLines(s)) == HeadLines(s.(connection := NormalConnections(s.connection)))
  {
    hide NormalLines, StringLines, NormalConnection;
    var i := TimingLines(s.timing);
    var h := ConnectionLines(s.connection) + i;
    var g := StringLines('p', s.phone) + h;
    var f := StringLines('e', s.email) + g;
    var e := StringLines('u', s.uri) + f;
    var d := StringLines('i', s.info) + e;
    var c := StringLines('s', s.name) + d;
    NormalOfFirst(s, c);
    StringKept('s', s.name, d);
    StringKept('i', s.info, e);
    StringKept('u', s.uri, f);
    StringKept('e', s.email, g);
    StringKept('p', s.phone, h);
    NormalOfLast(s);
  }

  lemma NormalOfFirst(s: Session, rest: seq<Line>)
    ensures (NormalLines(VersionLines(s.version) + (OriginLines(s.origin) + rest))
      == VersionLines(s.version) + (OriginLines(s.origin) + NormalLines(rest)))
  {
    hide NormalLines;
    NormalJoined(VersionLines(s.version), OriginLines(s.origin) + rest);
    NormalJoined(OriginLines(s.origin), rest);
    NormalOfOne(VersionLines(s.version));
    NormalOfOne(OriginLines(s.origin));
  }

  lemma NormalOfLast(s: Session)
    ensures (NormalLines(ConnectionLines(s.connection) + TimingLines(s.timing))
      == ConnectionLines(NormalConnections(s.connection)) + TimingLines(s.timing))
  {
    hide NormalLines, NormalConnection;
    NormalJoined(ConnectionLines(s.connection), TimingLines(s.timing));
    NormalOfOne(ConnectionLines(s.connection));
    NormalOfOne(TimingLines(s.timing));
  }

  lemma NormalOfSession(s: Session)
    ensures NormalLines(SessionLines(s)) == SessionLines(Normal(s))
  {
    hide NormalLines, HeadLines, AttributeLines, AllMediaLines;
    var a, m := AttributeLines(s.attributes), AllMediaLines(s.media);
    NormalJoined(HeadLines(s), a + m);
    NormalJoined(a, m);
    NormalOfHead(s);
    NormalOfAttributes(s.attributes);
    NormalOfMedias(s.media);
    SameHead(s.(connection := NormalConnections(s.connection)), Normal(s));
  }

  lemma SameHead(s: Session, t: Session)
    requires s.(attributes := t.attributes, media := t.media) == t
    ensures HeadLines(s) == HeadLines(t)
  {
  }

  // ---------------------------------------------------------------- printed and parsed

  predicate AllFair(ls: seq<Line>) {
    forall i :: 0 <= i < |ls| ==> Fair(ls[i])
  }

  function Texts(ls: seq<Line>): (r: seq<string>)
    requires AllKnown(ls)
    ensures |r| == |ls|
  {
    if ls == [] then [] else [PrintLine(ls[0])] + Texts(ls[1..])
  }

  lemma FairKnown(l: Line)
    requires Fair(l)
    ensures Known(l)
  {
  }

  lemma {:induction false} TextsAt(ls: seq<Line>, i: nat)
    requires AllKnown(ls) && i < |ls|
    ensures Texts(ls)[i] == PrintLine(ls[i])
  {
    hide PrintLine, Known;
    if i > 0 { TextsAt(ls[1..], i - 1); }
  }

  lemma {:induction false} TextsReadBack(ls: seq<Line>)
    requires AllFair(ls)
    ensures AllKnown(ls) && LinesText(ls) == Terminated(Texts(ls)) && LinesOk(Texts(ls))
    ensures Understood(Texts(ls)) == NormalLines(ls)
  {
    hide Fair, Known, PrintLine, ParseLine, NormalLine, Free;
    forall i | 0 <= i < |ls| ensures Known(ls[i]) { FairKnown(ls[i]); }
    if ls != [] {
      LineReadBack(ls[0]);
      TextsReadBack(ls[1..]);
      assert Texts(ls)[1..] == Texts(ls[1..]);
    }
  }

  /** The normal form of a line prints the same, and is its own normal form. */
  lemma NormalPrints(l: Line)
    requires Known(l)
    ensures Known(NormalLine(l)) && PrintLine(NormalLine(l)) == PrintLine(l) && NormalLine(NormalLine(l)) == NormalLine(l)
  {
    hide Digits, MediaName, PtsText, AttributeName;
  }

  lemma {:induction false} NormalTexts(ls: seq<Line>)
    requires AllKnown(ls)
    ensures AllKnown(NormalLines(ls)) && LinesText(NormalLines(ls)) == LinesText(ls)
    ensures NormalLines(NormalLines(ls)) == NormalLines(ls)
  {
    hide Known, PrintLine, NormalLine;
    if ls != [] {
      NormalPrints(ls[0]);
      NormalTexts(ls[1..]);
      assert NormalLines(ls)[1..] == NormalLines(ls[1..]);
    }
  }

  /** Printing is a normal form: parsing what was printed gives the session in its normal
      form, which prints the same, so that printing, parsing and printing again changes
      nothing more. */
  lemma SdpRoundTrip(s: Session)
    requires AllFair(SessionLines(s))
    ensures AllKnown(SessionLines(s)) && ParseSdp(PrintSdp(s)) == Normal(s)
    ensures AllKnown(SessionLines(Normal(s))) && PrintSdp(Normal(s)) == PrintSdp(s)
    ensures Normal(Normal(s)) == Normal(s)
  {
    hide Lines, Build, SessionLines, Normal, Fair, Known, LinesText, Terminated, Texts, Understood, NormalLines;
    var ls := SessionLines(s);
    TextsReadBack(ls);
    var text := PrintSdp(s);
    assert text == Terminated(Texts(ls)) + CRLF + "";
    assert text[0..] == text;
    LinesRead(text, 0, Texts(ls), "");
    NormalOfSession(s);
    LinesBuild(Normal(s));
    NormalTexts(ls);
    NormalOfSession(Normal(s));
    LinesBuild(Normal(Normal(s)));
  }

  // ------------------------------------------------------------------------- scope

  predicate NoMedia(ls: seq<Line>) {
    forall i :: 0 <= i < |ls| ==> !ls[i].MediaLine?
  }

  /** The last line of a kind decides. */
  function LastString(ls: seq<Line>, c: char): Option<string> {
    if ls == [] then None
    else
      var l := ls[|ls| - 1];
      if l.StringLine? && l.letter == c then Some(l.data) else LastString(ls[..|ls| - 1], c)
  }

  function LastConnection(ls: seq<Line>): Option<Connection> {
    if ls == [] then None
    else
      var l := ls[|ls| - 1];
      if l.ConnectionLine? then Some(l.connection) else LastConnection(ls[..|ls| - 1])
  }

  /** The attribute lines, in order. */
  function AttributesIn(ls: seq<Line>): seq<Option<Attribute>> {
    if ls == [] then []
    else
      var l := ls[|ls| - 1];
      AttributesIn(ls[..|ls| - 1]) + if l.AttributeLine? then [l.attribute] else []
  }

  /** A media line and the lines up to the next. */
  datatype Section = Section(desc: MediaDesc, lines: seq<Line>)

  function SectionMedia(c: Section): Media {
    Media(c.desc, LastString(c.lines, 'i'), LastConnection(c.lines), AttributesIn(c.lines))
  }

  function SectionLines(cs: seq<Section>): seq<Line> {
    if cs == [] then [] else [MediaLine(cs[0].desc)] + (cs[0].lines + SectionLines(cs[1..]))
  }

  function SectionMedias(cs: seq<Section>): (r: seq<Media>)
    ensures |r| == |cs| && forall i :: 0 <= i < |cs| ==> r[i] == SectionMedia(cs[i])
  {
    if cs == [] then [] else [SectionMedia(cs[0])] + SectionMedias(cs[1..])
  }

  lemma BuildLast(s: Session, ls: seq<Line>)
    requires ls != []
    ensures Build(s, ls) == Place(Build(s, ls[..|ls| - 1]), ls[|ls| - 1])
  {
    hide Place, Build;
    var k := |ls| - 1;
    BuildOn(s, ls[..k], [ls[k]]);
    assert ls[..k] + [ls[k]] == ls;
    BuildOne(Build(s, ls[..k]), ls[k]);
  }

  /** Before any media line, everything goes to the session. */
  lemma {:induction false} BeforeMedia(ls: seq<Line>)
    requires NoMedia(ls)
    ensures var s := Build(EMPTY, ls);
      && s.media == [] && s.info == LastString(ls, 'i') && s.connection == LastConnection(ls)
      && s.attributes == AttributesIn(ls)
  {
    hide Build;
    if ls == [] {
      BuildNothing(EMPTY);
    } else {
      BeforeMedia(ls[..|ls| - 1]);
      BuildLast(EMPTY, ls);
    }
  }

  /** The same parts of a session. */
  predicate SameScope(s: Session, t: Session) {
    s.info == t.info && s.connection == t.connection && s.attributes == t.attributes
  }

  /** After a media line, up to the next, the scoped lines go to that media and to nothing else. */
  lemma {:induction false} InSection(s: Session, d: MediaDesc, ls: seq<Line>)
    requires NoMedia(ls)
    ensures var t := Build(s, [MediaLine(d)] + ls);
      SameScope(s, t) && t.media == s.media + [SectionMedia(Section(d, ls))]
  {
    hide Build;
    var all := [MediaLine(d)] + ls;
    if ls == [] {
      assert all == [MediaLine(d)];
      BuildOne(s, MediaLine(d));
    } else {
      var front := ls[..|ls| - 1];
      InSection(s, d, front);
      BuildLast(s, all);
      assert all[..|all| - 1] == [MediaLine(d)] + front;
      OneMoreLine(Build(s, [MediaLine(d)] + front), s.media, Section(d, front), ls[|ls| - 1]);
      assert Section(d, ls).lines[..|ls| - 1] == front;
    }
  }

  lemma OneMoreLine(t: Session, ms: seq<Media>, c: Section, l: Line)
    requires t.media == ms + [SectionMedia(c)] && !l.MediaLine?
    ensures var u := Place(t, l); SameScope(t, u) && u.media == ms + [SectionMedia(Section(c.desc, c.lines + [l]))]
  {
    hide SectionMedia;
    SectionGrows(c, l);
    var m := SectionMedia(c);
    if Scoped(l) {
      assert t == t.(media := ms + [m]);
      PlaceLast(t, ms, m, l);
    }
  }

  lemma SectionGrows(c: Section, l: Line)
    requires !l.MediaLine?
    ensures SectionMedia(Section(c.desc, c.lines + [l])) == if Scoped(l) then PlaceInMedia(SectionMedia(c), l) else SectionMedia(c)
  {
    assert (c.lines + [l])[..|c.lines|] == c.lines;
  }

  lemma {:induction false} Sections(s: Session, cs: seq<Section>)
    requires forall i :: 0 <= i < |cs| ==> NoMedia(cs[i].lines)
    ensures var t := Build(s, SectionLines(cs)); SameScope(s, t) && t.media == s.media + SectionMedias(cs)
    decreases |cs|
  {
    hide Build, NoMedia, SectionMedia, Place, SectionLines, SectionMedias;
    if cs == [] {
      NoSections();
      BuildNothing(s);
      assert s.media + [] == s.media;
    } else {
      var first := [MediaLine(cs[0].desc)] + cs[0].lines;
      InSection(s, cs[0].desc, cs[0].lines);
      FirstSection(cs);
      BuildOn(s, first, SectionLines(cs[1..]));
      Sections(Build(s, first), cs[1..]);
      assert s.media + [SectionMedia(cs[0])] + SectionMedias(cs[1..]) == s.media + SectionMedias(cs);
    }
  }

  lemma NoSections()
    ensures SectionLines([]) == [] && SectionMedias([]) == []
  {
  }

  lemma FirstSection(cs: seq<Section>)
    requires cs != []
    ensures SectionLines(cs) == [MediaLine(cs[0].desc)] + cs[0].lines + SectionLines(cs[1..])
    ensures cs[0] == Section(cs[0].desc, cs[0].lines) && SectionMedias(cs) == [SectionMedia(cs[0])] + SectionMedias(cs[1..])
  {
    hide SectionMedia;
  }

  /** Scope: of the lines before the first media line, the last information and connection
      lines and all attribute lines are the session's; of those after a media line, they
      are that media's. */
  lemma Scope(before: seq<Line>, cs: seq<Section>)
    requires NoMedia(before) && forall i :: 0 <= i < |cs| ==> NoMedia(cs[i].lines)
    ensures var s := Build(EMPTY, before + SectionLines(cs));
      && s.info == LastString(before, 'i') && s.connection == LastConnection(before) && s.attributes == AttributesIn(before)
      && s.media == SectionMedias(cs)
  {
    hide Build, NoMedia;
    BuildOn(EMPTY, before, SectionLines(cs));
    BeforeMedia(before);
    Sections(Build(EMPTY, before), cs);
    assert [] + SectionMedias(cs) == SectionMedias(cs);
  }

  /** Any lines have that form: the sections start at the media lines. */
  lemma {:induction false} Divided(ls: seq<Line>) returns (before: seq<Line>, cs: seq<Section>)
    ensures ls == before + SectionLines(cs) && NoMedia(before)
    ensures forall i :: 0 <= i < |cs| ==> NoMedia(cs[i].lines)
    ensures ls != [] && ls[0].MediaLine? ==> before == []
  {
    if ls == [] {
      before, cs := [], [];
    } else {
      var l := ls[0];
      before, cs := Divided(ls[1..]);
      if l.MediaLine? {
        var c := Section(l.media, before);
        assert ([c] + cs)[1..] == cs && ls == [] + ([l] + (before + SectionLines(cs)));
        before, cs := [], [c] + cs;
      } else {
        assert ls == [l] + before + SectionLines(cs);
        before := [l] + before;
      }
    }
  }

  /** The scope of any input. */
  lemma ScopeOfAny(ls: seq<Line>) returns (before: seq<Line>, cs: seq<Section>)
    ensures ls == before + SectionLines(cs) && NoMedia(before) && forall i :: 0 <= i < |cs| ==> NoMedia(cs[i].lines)
    ensures var s := Build(EMPTY, ls);
      && s.info == LastString(before, 'i') && s.connection == LastConnection(before) && s.attributes == AttributesIn(before)
      && s.media == SectionMedias(cs)
  {
    hide Build, NoMedia;
    before, cs := Divided(ls);
    Scope(before, cs);
  }

  /** The kind of a line, by the letter that it is printed with. */
  function LetterOf(l: Line): char {
    match l
    case VersionLine(n) => 'v'
    case OriginLine(o) => 'o'
    case StringLine(c, d) => c
    case ConnectionLine(c) => 'c'
    case TimingLine(t) => 't'
    case AttributeLine(a) => 'a'
    case MediaLine(m) => 'm'
  }

  /** The last line of a kind. */
  function LastLine(ls: seq<Line>, letter: char): Option<Line> {
    if ls == [] then None
    else if LetterOf(ls[|ls| - 1]) == letter then Some(ls[|ls| - 1])
    else LastLine(ls[..|ls| - 1], letter)
  }

  /** What a session has of its own, as the line that says so. */
  function Said(s: Session, letter: char): Option<Line> {
    match letter
    case 'v' => if s.version.Some? then Some(VersionLine(s.version.value)) else None
    case 'o' => if s.origin.Some? then Some(OriginLine(s.origin.value)) else None
    case 's' => if s.name.Some? then Some(StringLine('s', s.name.value)) else None
    case 'u' => if s.uri.Some? then Some(StringLine('u', s.uri.value)) else None
    case 'e' => if s.email.Some? then Some(StringLine('e', s.email.value)) else None
    case 'p' => if s.phone.Some? then Some(StringLine('p', s.phone.value)) else None
    case 't' => if s.timing.Some? then Some(TimingLine(s.timing.value)) else None
    case _ => None
  }

  /** The lines that have no scope belong to the session wherever they stand, the last of each
      kind deciding. */
  lemma {:induction false} SessionWide(ls: seq<Line>, letter: char)
    requires letter in "vosuept" && forall l <- ls :: l.StringLine? ==> l.letter in "siuep"
    ensures Said(Build(EMPTY, ls), letter) == LastLine(ls, letter)
  {
    hide Build, Place, Said;
    if ls == [] {
      BuildNothing(EMPTY);
      NothingSaid(letter);
    } else {
      SessionWide(ls[..|ls| - 1], letter);
      BuildLast(EMPTY, ls);
      PlaceSaid(Build(EMPTY, ls[..|ls| - 1]), ls[|ls| - 1], letter);
    }
  }

  lemma NothingSaid(letter: char)
    ensures Said(EMPTY, letter) == None
  {
  }

  lemma PlaceSaid(s: Session, l: Line, letter: char)
    requires letter in "vosuept" && (l.StringLine? ==> l.letter in "siuep")
    ensures Said(Place(s, l), letter) == if LetterOf(l) == letter then Some(l) else Said(s, letter)
  {
    if s.media != [] && Scoped(l) {
      hide PlaceInMedia;
      assert LetterOf(l) in "ica" && letter !in "ica";
    } else if l.StringLine? {
      StringSaid(s, l.letter, l.data, letter);
    } else {
      hide PlaceString;
    }
  }

  lemma StringSaid(s: Session, c: char, d: string, letter: char)
    requires letter in "vosuept" && c in "siuep"
    ensures Said(PlaceString(s, c, d), letter) == if c == letter then Some(StringLine(c, d)) else Said(s, letter)
  {
  }

  /** The attributes of the session, then those of each media. */
  function AllAttributes(s: Session): seq<Option<Attribute>> {
    s.attributes + MediaAttributes(s.media)
  }

  function MediaAttributes(ms: seq<Media>): seq<Option<Attribute>> {
    if ms == [] then [] else MediaAttributes(ms[..|ms| - 1]) + ms[|ms| - 1].attributes
  }

  lemma PlaceAttributes(s: Session, l: Line)
    ensures AllAttributes(Place(s, l)) == AllAttributes(s) + if l.AttributeLine? then [l.attribute] else []
  {
    hide MediaAttributes;
    var k := |s.media| - 1;
    if s.media != [] && Scoped(l) {
      var ms, m := s.media[..k], s.media[k];
      assert s == s.(media := ms + [m]);
      PlaceLast(s, ms, m, l);
      LastAttributes(ms, m);
      LastAttributes(ms, PlaceInMedia(m, l));
      var a, b, c := s.attributes, MediaAttributes(ms), m.attributes;
      if l.AttributeLine? { assert a + (b + (c + [l.attribute])) == a + (b + c) + [l.attribute]; }
    } else if l.MediaLine? {
      LastAttributes(s.media, Media(l.media, None, None, []));
      assert MediaAttributes(s.media) + [] == MediaAttributes(s.media);
    } else if l.AttributeLine? {
      assert MediaAttributes([]) == [] by { NoAttributes(); }
    }
  }

  lemma NoAttributes()
    ensures MediaAttributes([]) == []
  {
  }

  lemma LastAttributes(ms: seq<Media>, m: Media)
    ensures MediaAttributes(ms + [m]) == MediaAttributes(ms) + m.attributes
  {
    assert (ms + [m])[..|ms|] == ms;
  }

  /** Whatever the lines are, no attribute line is lost or moved past another. */
  lemma {:induction false} AttributesKept(ls: seq<Line>)
    ensures AllAttributes(Build(EMPTY, ls)) == AttributesIn(ls)
  {
    hide Build, Place;
    if ls == [] {
      BuildNothing(EMPTY);
    } else {
      AttributesKept(ls[..|ls| - 1]);
      BuildLast(EMPTY, ls);
      PlaceAttributes(Build(EMPTY, ls[..|ls| - 1]), ls[|ls| - 1]);
    }
  }
}
