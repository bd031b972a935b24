/** Whole messages as text (src/sip.cpp): request and response parsing and printing as
    functions, and the round trip between them. */
module MessageText {
  import opened Tokens
  import opened SipTables
  import opened HeaderText

  datatype RequestLine = RequestLine(method_: Method, uri: string, version: string)

  /** The method is the one that the CSeq header names. */
  datatype StatusLine = StatusLine(version: string, status: Status, method_: Method)

  /** A body buffer: the characters in it and the length it is said to have. */
  datatype Content = Content(contentType: string, length: nat, data: string)

  datatype Message<L> = Message(line: L, headers: seq<Header>, content: Option<Content>)

  // ------------------------------------------------------------------ first lines

  function ParseRequestLine(line: string): Option<RequestLine> {
    match MethodOf(Tok(line, " "))
    case None => None
    case Some(m) => Some(RequestLine(m, Tok(Skip(line, " "), " "), Skip(Skip(line, " "), " ")))
  }

  function RequestLineText(l: RequestLine): string {
    MethodName(l.method_) + " " + l.uri + " " + l.version
  }

  function ParseStatusLine(line: string): Option<(string, Status)> {
    match StatusOf(Atoi(Tok(Skip(line, " "), " ")))
    case None => None
    case Some(s) => Some((Tok(line, " "), s))
  }

  function StatusLineText(l: StatusLine): string {
    l.version + " " + Code(l.status) + " " + StatusPhrase(l.status)
  }

  function Code(s: Status): string {
    Chunk(s);
    Digits(StatusCode(s))
  }

  predicate RequestLineOk(l: RequestLine) {
    Free(l.uri, " \r\n") && Free(l.version, CRLF) && |RequestLineText(l)| <= 149
  }

  predicate StatusLineOk(l: StatusLine) {
    Free(l.version, " \r\n") && |StatusLineText(l)| <= 149
  }

  lemma RequestLineReadBack(l: RequestLine)
    requires RequestLineOk(l)
    ensures ParseRequestLine(RequestLineText(l)) == Some(l)
    ensures Free(RequestLineText(l), CRLF) && RequestLineText(l) != ""
  {
    hide Tok, Skip, MethodName, MethodFrom, Free;
    var m := MethodName(l.method_);
    MethodClean(l.method_);
    FreeOf(m, " \r\n", " ");
    FreeOf(m, " \r\n", CRLF);
    FreeOf(l.uri, " \r\n", " ");
    FreeOf(l.uri, " \r\n", CRLF);
    SpaceClean();
    FreeJoined(m, " ", CRLF);
    FreeJoined(m + " ", l.uri, CRLF);
    FreeJoined(m + " " + l.uri, " ", CRLF);
    FreeJoined(m + " " + l.uri + " ", l.version, CRLF);
    assert RequestLineText(l) == m + " " + (l.uri + " " + l.version);
    TokAt(m, " ", l.uri + " " + l.version);
    TokAt(l.uri, " ", l.version);
    MethodFound(l.method_, 0);
  }

  lemma StatusLineReadBack(l: StatusLine)
    requires StatusLineOk(l)
    ensures ParseStatusLine(StatusLineText(l)) == Some((l.version, l.status))
    ensures Free(StatusLineText(l), CRLF) && |StatusLineText(l)| <= 149
  {
    hide Tok, Skip, StatusCode, StatusPhrase, StatusFrom, Free, Digits, Atoi;
    var c, p := Code(l.status), StatusPhrase(l.status);
    PhraseClean(l.status);
    assert Free(p, CRLF) by { PhraseFree(p); }
    Chunk(l.status);
    var n: nat := StatusCode(l.status);
    DigitsClean(n);
    FreeOf(l.version, " \r\n", " ");
    FreeOf(l.version, " \r\n", CRLF);
    SpaceClean();
    FreeJoined(l.version, " ", CRLF);
    FreeJoined(l.version + " ", c, CRLF);
    FreeJoined(l.version + " " + c, " ", CRLF);
    FreeJoined(l.version + " " + c + " ", p, CRLF);
    assert StatusLineText(l) == l.version + " " + (c + " " + p);
    TokAt(l.version, " ", c + " " + p);
    TokAt(c, " ", p);
    AtoiDigits(n);
    StatusFound(l.status, 0);
  }

  lemma PhraseFree(p: string)
    requires OneLine(p)
    ensures Free(p, CRLF)
  {
  }

  // ---------------------------------------------------------------- header lists

  /** The headers of the lines that parse; the others are passed over. */
  function ParseSome(lines: seq<string>): seq<Header> {
    if lines == [] then []
    else
      var h := ParseHeader(lines[0]);
      (if h.Some? then [h.value] else []) + ParseSome(lines[1..])
  }

  predicate AllParse(lines: seq<string>) {
    forall i :: 0 <= i < |lines| ==> ParseHeader(lines[i]).Some?
  }

  lemma ParseStep(line: string, rest: seq<string>)
    ensures ParseSome([line] + rest) == (if ParseHeader(line).Some? then [ParseHeader(line).value] else []) + ParseSome(rest)
    ensures AllParse([line] + rest) <==> ParseHeader(line).Some? && AllParse(rest)
  {
    hide ParseHeader;
    var ls := [line] + rest;
    assert ls[1..] == rest;
    assert AllParse(ls) ==> forall i :: 0 <= i < |rest| ==> rest[i] == ls[i + 1];
  }

  /** The last header with an identity decides. */
  function Last(headers: seq<Header>, id: HeaderId): Option<Header> {
    if headers == [] then None
    else if headers[|headers| - 1].id == id then Some(headers[|headers| - 1])
    else Last(headers[..|headers| - 1], id)
  }

  predicate Has(headers: seq<Header>, id: HeaderId) {
    exists i :: 0 <= i < |headers| && headers[i].id == id
  }

  predicate AllShaped(headers: seq<Header>) {
    forall i :: 0 <= i < |headers| ==> Shaped(headers[i])
  }

  function NumberIn(h: Option<Header>): nat {
    if h.Some? && h.value.fields.Number? then h.value.fields.number else 0
  }

  function TextIn(h: Option<Header>): string {
    if h.Some? && h.value.fields.Address? then h.value.fields.address else ""
  }

  function MethodIn(h: Option<Header>): Method {
    if h.Some? && h.value.fields.Sequence? && h.value.fields.method_.Some? then h.value.fields.method_.value else 0
  }

  /** The number that the last Content-Length gives, 0 if there is none. */
  function BodyLength(headers: seq<Header>): nat {
    NumberIn(Last(headers, ContentLength))
  }

  function BodyType(headers: seq<Header>): string {
    TextIn(Last(headers, ContentType))
  }

  /** What the last CSeq names, and INVITE where none does. */
  function MethodFromCSeq(headers: seq<Header>): Method {
    MethodIn(Last(headers, CSeq))
  }

  lemma {:induction false} LastIn(headers: seq<Header>, id: HeaderId)
    ensures Last(headers, id).Some? <==> Has(headers, id)
    ensures Last(headers, id).Some? ==> Last(headers, id).value in headers && Last(headers, id).value.id == id
  {
    if headers != [] && headers[|headers| - 1].id != id {
      LastIn(headers[..|headers| - 1], id);
    }
  }

  lemma {:induction false} ParseShaped(lines: seq<string>)
    ensures AllShaped(ParseSome(lines))
  {
    hide ParseHeader;
    if lines != [] {
      ParseShaped(lines[1..]);
      if ParseHeader(lines[0]).Some? { HeaderShaped(lines[0]); }
    }
  }

  lemma HeaderShaped(line: string)
    requires ParseHeader(line).Some?
    ensures Shaped(ParseHeader(line).value)
  {
  }

  // --------------------------------------------------------------------- parsing

  /** The body is read when the length says there is one and it lies within the input. */
  predicate BodyThere(headers: seq<Header>, pos: Cursor, size: nat) {
    BodyLength(headers) > 0 && pos.At? && pos.n + BodyLength(headers) <= size
  }

  function FirstLine(input: string): string {
    Tok(input, CRLF)
  }

  function HeaderLines(input: string): seq<string> {
    Lines(input, After(input, CRLF, At(0))).0
  }

  function BodyCursor(input: string): Cursor {
    Lines(input, After(input, CRLF, At(0))).1
  }

  function ParseRequest(input: string, size: nat): Option<Message<RequestLine>> {
    var line := ParseRequestLine(FirstLine(input));
    if line == None then None
    else
      var headers := ParseSome(HeaderLines(input));
      var d := Ltrim(Left(input, BodyCursor(input)));
      Some(Message(line.value, headers,
        if BodyThere(headers, BodyCursor(input), size) then Some(Content(BodyType(headers), |d|, d)) else None))
  }

  /** As for requests, except that a header that does not parse is an error and that the
      body is cut to its announced length. */
  function ParseResponse(input: string, size: nat): Option<Message<StatusLine>> {
    var line := ParseStatusLine(FirstLine(input));
    if line == None || !AllParse(HeaderLines(input)) then None
    else
      var headers := ParseSome(HeaderLines(input));
      var n, d := BodyLength(headers), Ltrim(Left(input, BodyCursor(input)));
      Some(Message(StatusLine(line.value.0, line.value.1, MethodFromCSeq(headers)), headers,
        if BodyThere(headers, BodyCursor(input), size) then Some(Content(BodyType(headers), n, Cut(d, n))) else None))
  }

  // -------------------------------------------------------------------- printing

  /** The headers that printing adds when they are missing. */
  function WithType(headers: seq<Header>, content: Option<Content>): seq<Header> {
    if content.Some? && !Has(headers, ContentType)
    then headers + [Header(ContentType, Address(content.value.contentType, []))] else headers
  }

  function WithLength(headers: seq<Header>, content: Option<Content>): seq<Header> {
    if !Has(headers, ContentLength)
    then headers + [Header(ContentLength, Number(if content.Some? then content.value.length else 0))] else headers
  }

  /** The headers that come out. Those added to an empty list are lost, since the list
      has no first header then. */
  function Printed(headers: seq<Header>, content: Option<Content>): seq<Header> {
    if headers == [] then [] else WithLength(WithType(headers, content), content)
  }

  function HeadersText(headers: seq<Header>): string
    requires AllShaped(headers)
  {
    if headers == [] then "" else PrintHeader(headers[0]) + CRLF + HeadersText(headers[1..])
  }

  /** `length` characters of the buffer. */
  function BodyText(content: Option<Content>): string {
    match content
    case None => ""
    case Some(c) => if c.length <= |c.data| then c.data[..c.length] else c.data + seq(c.length - |c.data|, _ => '\0')
  }

  function MessageTextOf(line: string, headers: seq<Header>, content: Option<Content>): string
    requires AllShaped(headers)
  {
    Cut(line, 149) + CRLF + HeadersText(headers) + CRLF + BodyText(content)
  }

  lemma PrintedShaped(headers: seq<Header>, content: Option<Content>)
    requires AllShaped(headers)
    ensures AllShaped(Printed(headers, content))
  {
  }

  function PrintRequest(m: Message<RequestLine>): string
    requires AllShaped(m.headers)
  {
    PrintedShaped(m.headers, m.content);
    MessageTextOf(RequestLineText(m.line), Printed(m.headers, m.content), m.content)
  }

  function PrintResponse(m: Message<StatusLine>): string
    requires AllShaped(m.headers)
  {
    PrintedShaped(m.headers, m.content);
    MessageTextOf(StatusLineText(m.line), Printed(m.headers, m.content), m.content)
  }

  // ------------------------------------------------------------------ round trips

  lemma {:induction false} HeadersReadBack(headers: seq<Header>)
    requires forall i :: 0 <= i < |headers| ==> Printable(headers[i])
    ensures AllShaped(headers) && HeadersText(headers) == Terminated(LinesOf(headers)) && LinesOk(LinesOf(headers))
    ensures ParseSome(LinesOf(headers)) == headers && AllParse(LinesOf(headers))
  {
    hide Printable, PrintHeader, ParseHeader, Line, Free;
    forall i | 0 <= i < |headers| ensures Shaped(headers[i]) { PrintableShaped(headers[i]); }
    if headers != [] {
      HeaderReadBack(headers[0]);
      HeadersReadBack(headers[1..]);
      assert [headers[0]] + headers[1..] == headers;
    }
  }

  lemma PrintableShaped(h: Header)
    requires Printable(h)
    ensures Shaped(h)
  {
  }

  function LinesOf(headers: seq<Header>): seq<string>
    requires AllShaped(headers)
  {
    if headers == [] then [] else [Line(headers[0])] + LinesOf(headers[1..])
  }

  /** A message that survives printing: at least one header, every header printable, and
      a body that does not start with white space and is as long as the last
      Content-Length says, its own or the one that printing adds. */
  ghost predicate Sendable(headers: seq<Header>, content: Option<Content>) {
    headers != [] && Carried(headers, content)
  }

  /** The same of any list of headers, the empty one included. */
  ghost predicate Carried(headers: seq<Header>, content: Option<Content>) {
    && (forall i :: 0 <= i < |headers| ==> Printable(headers[i]))
    && (content.Some? ==> ContentOk(content.value))
    && (content.Some? ==> Has(headers, ContentLength) ==> BodyLength(headers) == content.value.length)
  }

  predicate ContentOk(c: Content) {
    && c.length == |c.data| <= 1500 && (c.data != "" ==> !IsSpace(c.data[0]))
    && |c.contentType| < 150 && TextOk(c.contentType) && Free(c.contentType, ";")
  }

  /** What comes back: the headers as printed, the body under the type that they give. */
  ghost function BodyBack(headers: seq<Header>, content: Option<Content>): Option<Content> {
    if content.Some? && content.value.data != "" then
      Some(Content(BodyType(headers), |content.value.data|, content.value.data))
    else None
  }

  /** Printing's own headers are printable too, and give the length of the body. */
  lemma PrintedOk(headers: seq<Header>, content: Option<Content>)
    requires Sendable(headers, content)
    ensures var hs := Printed(headers, content);
      && AllShaped(hs) && (forall i :: 0 <= i < |hs| ==> Printable(hs[i]))
      && (content.Some? ==> BodyLength(hs) == content.value.length)
  {
    hide Name, TextOk, Free, ParamsOk, ParamsText, Line;
    forall i | 0 <= i < |headers| ensures Shaped(headers[i]) { PrintableShaped(headers[i]); }
    var t := WithType(headers, content);
    var hs := WithLength(t, content);
    if content.Some? {
      AddedOk(content.value);
      LengthKept(headers, content);
    } else {
      ZeroOk();
    }
  }

  /** What printing adds to headers: behind them, and only where there is none of its kind, a
      Content-Type with the type of the body and a Content-Length with its length, or 0. */
  lemma PrintedMeans(headers: seq<Header>, content: Option<Content>)
    requires headers != []
    ensures (Printed(headers, content) == headers
      + (if content.Some? && !Has(headers, ContentType) then [Header(ContentType, Address(content.value.contentType, []))] else [])
      + (if Has(headers, ContentLength) then [] else [Header(ContentLength, Number(if content.Some? then content.value.length else 0))]))
    ensures content.Some? ==>
      BodyType(Printed(headers, content)) == if Has(headers, ContentType) then BodyType(headers) else content.value.contentType
  {
    hide Has, Last;
    HasWithType(headers, content);
    if content.Some? {
      LastStep(headers, Header(ContentType, Address(content.value.contentType, [])), ContentType);
      LastStep(WithType(headers, content), Header(ContentLength, Number(content.value.length)), ContentType);
    }
    assert headers + [] == headers && WithType(headers, content) + [] == WithType(headers, content);
  }

  lemma LastStep(headers: seq<Header>, h: Header, id: HeaderId)
    ensures Last(headers + [h], id) == if h.id == id then Some(h) else Last(headers, id)
  {
    assert (headers + [h])[..|headers|] == headers;
  }

  /** A content comes back as it was, its type included, exactly if there is none, or if it has
      data and no Content-Type among the headers says otherwise. */
  predicate Survives(headers: seq<Header>, content: Option<Content>) {
    content == None || (content.value.data != "" && (Has(headers, ContentType) ==> BodyType(headers) == content.value.contentType))
  }

  lemma ContentBack(headers: seq<Header>, content: Option<Content>)
    requires Sendable(headers, content)
    ensures BodyBack(Printed(headers, content), content) == content <==> Survives(headers, content)
  {
    hide Printed, Printable, BodyType;
    PrintedMeans(headers, content);
  }

  lemma AddedOk(c: Content)
    requires ContentOk(c)
    ensures Printable(Header(ContentType, Address(c.contentType, [])))
    ensures Printable(Header(ContentLength, Number(c.length)))
  {
    NameClean(ContentType);
    EmptyParams();
  }

  lemma ZeroOk()
    ensures Printable(Header(ContentLength, Number(0)))
  {
  }

  lemma LengthKept(headers: seq<Header>, content: Option<Content>)
    requires AllShaped(headers) && content.Some?
    requires Has(headers, ContentLength) ==> BodyLength(headers) == content.value.length
    ensures var hs := WithLength(WithType(headers, content), content);
      AllShaped(hs) && BodyLength(hs) == content.value.length
  {
    hide Shaped;
    ShapedAdded(content.value);
    var t := WithType(headers, content);
    assert t != headers ==> t[..|headers|] == headers && t[|headers|].id == ContentType;
    var hs := WithLength(t, content);
    if hs != t {
      assert hs[|hs| - 1] == Header(ContentLength, Number(content.value.length));
    } else {
      HasWithType(headers, content);
      assert Last(t, ContentLength) == Last(headers, ContentLength);
    }
  }

  lemma ShapedAdded(c: Content)
    ensures Shaped(Header(ContentType, Address(c.contentType, []))) && Shaped(Header(ContentLength, Number(c.length)))
  {
  }

  lemma HasWithType(headers: seq<Header>, content: Option<Content>)
    ensures Has(WithType(headers, content), ContentLength) == Has(headers, ContentLength)
  {
    var t := WithType(headers, content);
    if i :| 0 <= i < |headers| && headers[i].id == ContentLength {
      assert t[i].id == ContentLength;
    }
  }

  /** The text of a message, taken apart again. */
  lemma TextReadBack(line: string, headers: seq<Header>, content: Option<Content>)
    requires |line| <= 149 && Free(line, CRLF)
    requires forall i :: 0 <= i < |headers| ==> Printable(headers[i])
    requires AllShaped(headers) && (content.Some? ==> ContentOk(content.value))
    ensures var text := MessageTextOf(line, headers, content);
      && FirstLine(text) == line && HeaderLines(text) == LinesOf(headers)
      && BodyCursor(text) == At(|text| - |BodyText(content)|) && Left(text, BodyCursor(text)) == BodyText(content)
      && BodyText(content) == if content.Some? then content.value.data else ""
  {
    hide Find, Free, Lines, Printable, ContentOk, BodyText, HeadersText, Terminated, LinesOf, LinesOk, Tok, Skip;
    HeadersReadBack(headers);
    BodyWhole(content);
    var body := BodyText(content);
    var text := MessageTextOf(line, headers, content);
    var rest := Terminated(LinesOf(headers)) + CRLF + body;
    assert text == line + CRLF + rest;
    TokAt(line, CRLF, rest);
    AfterFirst(text, line, rest);
    assert text[|line| + 2..] == rest;
    LinesRead(text, |line| + 2, LinesOf(headers), body);
    assert text[|text| - |body|..] == body;
  }

  lemma BodyWhole(content: Option<Content>)
    requires content.Some? ==> ContentOk(content.value)
    ensures BodyText(content) == if content.Some? then content.value.data else ""
  {
    hide TextOk, Free;
  }

  lemma AfterFirst(text: string, line: string, rest: string)
    requires text == line + CRLF + rest && Free(line, CRLF)
    ensures After(text, CRLF, At(0)) == At(|line| + 2)
  {
    FindAt(line, CRLF + rest, CRLF);
    assert text == line + (CRLF + rest) && text[0..] == text;
  }

  /** The body read back from a printed message. */
  lemma BodyReadBack(line: string, headers: seq<Header>, content: Option<Content>)
    requires |line| <= 149 && Free(line, CRLF) && Sendable(headers, content)
    ensures var hs := Printed(headers, content);
      && AllShaped(hs) && (forall i :: 0 <= i < |hs| ==> Printable(hs[i]))
      && (var text := MessageTextOf(line, hs, content);
         && FirstLine(text) == line && HeaderLines(text) == LinesOf(hs)
         && BodyThere(hs, BodyCursor(text), |text|) == BodyBack(hs, content).Some?
         && (BodyBack(hs, content).Some? ==>
               Ltrim(Left(text, BodyCursor(text))) == content.value.data && BodyLength(hs) == |content.value.data|))
  {
    hide Free, Printable, MessageTextOf, BodyCursor, BodyText, Left, Printed, BodyLength, FirstLine, HeaderLines;
    PrintedOk(headers, content);
    TextReadBack(line, Printed(headers, content), content);
  }

  /** Parsing a printed request gives back its line, its headers up to those that
      printing adds, and its body. */
  lemma RequestRoundTrip(m: Message<RequestLine>)
    requires RequestLineOk(m.line) && Sendable(m.headers, m.content)
    ensures AllShaped(m.headers) && AllShaped(Printed(m.headers, m.content))
    ensures (var text := PrintRequest(m); var hs := Printed(m.headers, m.content);
      ParseRequest(text, |text|) == Some(Message(m.line, hs, BodyBack(hs, m.content))))
    ensures ParseRequest(PrintRequest(m), |PrintRequest(m)|).value.content == m.content <==> Survives(m.headers, m.content)
  {
    hide Printable, Printed, ParseRequestLine, RequestLineText, MessageTextOf, FirstLine, HeaderLines, BodyCursor, Left, Ltrim, BodyThere,
      Survives;
    ContentBack(m.headers, m.content);
    forall i | 0 <= i < |m.headers| ensures Shaped(m.headers[i]) { PrintableShaped(m.headers[i]); }
    RequestLineReadBack(m.line);
    BodyReadBack(RequestLineText(m.line), m.headers, m.content);
    HeadersReadBack(Printed(m.headers, m.content));
  }

  /** The same for responses; the reason phrase comes from the table, and the method
      from the CSeq header. */
  lemma ResponseRoundTrip(m: Message<StatusLine>)
    requires StatusLineOk(m.line) && Sendable(m.headers, m.content)
    ensures AllShaped(m.headers) && AllShaped(Printed(m.headers, m.content))
    ensures (var text := PrintResponse(m); var hs := Printed(m.headers, m.content);
      ParseResponse(text, |text|) == Some(Message(m.line.(method_ := MethodFromCSeq(hs)), hs, BodyBack(hs, m.content))))
    ensures ParseResponse(PrintResponse(m), |PrintResponse(m)|).value.content == m.content <==> Survives(m.headers, m.content)
  {
    hide Printable, Printed, ParseStatusLine, StatusLineText, MessageTextOf, FirstLine, HeaderLines, BodyCursor, Left, Ltrim, BodyThere, AllParse,
      Survives;
    ContentBack(m.headers, m.content);
    forall i | 0 <= i < |m.headers| ensures Shaped(m.headers[i]) { PrintableShaped(m.headers[i]); }
    StatusLineReadBack(m.line);
    BodyReadBack(StatusLineText(m.line), m.headers, m.content);
    HeadersReadBack(Printed(m.headers, m.content));
  }

  /** Exactly the messages with a header keep their length and their body: to an empty
      list, the two headers that printing adds are lost, and the parser then finds no
      length and reads no body. */
  lemma HeaderNeeded(m: Message<RequestLine>)
    requires RequestLineOk(m.line) && Carried(m.headers, m.content)
    ensures AllShaped(m.headers)
    ensures (var text := PrintRequest(m); var back := ParseRequest(text, |text|);
      && back.Some? && back.value.line == m.line
      && (Has(back.value.headers, ContentLength) <==> m.headers != [])
      && (back.value.content.Some? <==> m.headers != [] && m.content.Some? && m.content.value.data != ""))
  {
    hide Printable, ParseRequestLine, RequestLineText, MessageTextOf, FirstLine, HeaderLines, BodyCursor, Left, Ltrim, ContentOk, Printed;
    if m.headers != [] {
      RequestRoundTrip(m);
      LengthPrinted(m.headers, m.content);
    } else {
      RequestLineReadBack(m.line);
      NothingPrinted(m.content);
      TextReadBack(RequestLineText(m.line), [], m.content);
      HeadersReadBack([]);
    }
  }

  /** The same for responses. */
  lemma ResponseHeaderNeeded(m: Message<StatusLine>)
    requires StatusLineOk(m.line) && Carried(m.headers, m.content)
    ensures AllShaped(m.headers)
    ensures (var text := PrintResponse(m); var back := ParseResponse(text, |text|);
      && back.Some? && back.value.line.version == m.line.version && back.value.line.status == m.line.status
      && (Has(back.value.headers, ContentLength) <==> m.headers != [])
      && (back.value.content.Some? <==> m.headers != [] && m.content.Some? && m.content.value.data != ""))
  {
    hide Printable, ParseStatusLine, StatusLineText, MessageTextOf, FirstLine, HeaderLines, BodyCursor, Left, Ltrim, ContentOk, Printed;
    if m.headers != [] {
      ResponseRoundTrip(m);
      LengthPrinted(m.headers, m.content);
    } else {
      StatusLineReadBack(m.line);
      NothingPrinted(m.content);
      TextReadBack(StatusLineText(m.line), [], m.content);
      HeadersReadBack([]);
    }
  }

  lemma NothingPrinted(content: Option<Content>)
    ensures Printed([], content) == []
  {
  }

  lemma LengthPrinted(headers: seq<Header>, content: Option<Content>)
    requires headers != []
    ensures Has(Printed(headers, content), ContentLength)
  {
    var hs := WithType(headers, content);
    if !Has(hs, ContentLength) {
      assert Printed(headers, content)[|hs|].id == ContentLength;
    }
  }
}
