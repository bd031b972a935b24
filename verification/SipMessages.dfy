/** Requests and responses as objects (src/sip.cpp): the parse loops over a cursor, and
    printing into an output buffer. */
module SipMessages {
  import opened Tokens
  import opened SipTables
  import opened HeaderText
  import opened MessageText
  import opened Params
  import opened SipHeaders
  import opened SipLists
  import MessageReads

  const RETURN_OK: int := 0
  const RETURN_MESSAGE_PARSE_ERROR: int := -2

  class Request {
    var line: RequestLine
    const headers: HeaderList
    var content: Option<Content>

    constructor (line: RequestLine)
      ensures this.line == line && content == None && fresh(headers) && headers.Holds([])
      ensures headers.lastHeader == null && headers.shared == null && headers.headers == [] && headers.nodes == {}
    {
      this.line, content := line, None;
      headers := new HeaderList();
    }
  }

  class Response {
    var line: StatusLine
    const headers: HeaderList
    var content: Option<Content>

    constructor (line: StatusLine)
      ensures this.line == line && content == None && fresh(headers) && headers.Holds([])
      ensures headers.lastHeader == null && headers.shared == null && headers.headers == [] && headers.nodes == {}
    {
      this.line, content := line, None;
      headers := new HeaderList();
    }
  }

  // --------------------------------------------------------------------- parsing

  method RequestParseLine(input: string) returns (line: Option<RequestLine>)
    ensures line == ParseRequestLine(input)
  {
    hide Tok, Skip, After, MethodOf;
    StartLeft(input);
    var pos := At(0);
    var methodString, destinationString, versionString;
    LeftAfter(input, " ", pos);
    methodString, pos := NextToken(input, " ", pos);
    var m := FindMethod(methodString);
    if m == None {
      return None;
    }
    LeftAfter(input, " ", pos);
    destinationString, pos := NextToken(input, " ", pos);
    versionString, pos := GetRest(input, pos);
    line := Some(RequestLine(m.value, destinationString, versionString));
  }

  /** The reason phrase is read and dropped. */
  method ResponseParseLine(input: string) returns (line: Option<(string, Status)>)
    ensures line == ParseStatusLine(input)
  {
    hide Tok, Skip, After, StatusOf;
    StartLeft(input);
    var pos := At(0);
    var versionString, statusCodeString, phraseString;
    LeftAfter(input, " ", pos);
    versionString, pos := NextToken(input, " ", pos);
    statusCodeString, pos := NextToken(input, " ", pos);
    phraseString, pos := GetRest(input, pos);
    var s := FindStatus(Atoi(statusCodeString));
    line := if s == None then None else Some((versionString, s.value));
  }

  /** What a line loop has still to read at `p`. */
  lemma LinesHere(input: string, p: Cursor)
    ensures var t, next := Tok(Left(input, p), CRLF), After(input, CRLF, p);
      && (t == "" ==> Lines(input, p) == ([], next))
      && (t != "" ==>
            (|Left(input, next)| < |Left(input, p)| && Lines(input, p) == ([t] + Lines(input, next).0, Lines(input, next).1)))
  {
    hide Tok, After, Left;
    if Tok(Left(input, p), CRLF) != "" { Advances(input, CRLF, p); }
  }

  predicate AllFit(lines: seq<string>) {
    forall i :: 0 <= i < |lines| ==> LineFits(lines[i])
  }

  lemma FitStep(line: string, rest: seq<string>)
    requires AllFit([line] + rest)
    ensures LineFits(line) && AllFit(rest)
  {
    hide LineFits;
    assert ([line] + rest)[0] == line;
    assert forall i :: 0 <= i < |rest| ==> rest[i] == ([line] + rest)[i + 1];
  }

  /** The pointers that a loop keeps lead to the last headers read of their kind. */
  ghost predicate Kept(contentLength: SipHeader?, contentType: SipHeader?, vs: seq<Header>)
    reads contentLength, contentType
  {
    && BodyLength(vs) == (if contentLength == null then 0 else contentLength.number)
    && BodyType(vs) == (if contentType == null then "" else contentType.text)
  }

  ghost predicate KeptMethod(cseq: SipHeader?, vs: seq<Header>)
    reads cseq
  {
    MethodFromCSeq(vs) == if cseq == null || cseq.method_ == None then 0 else cseq.method_.value
  }

  lemma NothingKept()
    ensures Kept(null, null, []) && KeptMethod(null, [])
  {
  }

  /** The newest header is the last of its kind. */
  lemma Newest(h: SipHeader, vs: seq<Header>, v: Header)
    requires v == h.Value()
    ensures BodyLength(vs + [v]) == if h.id == ContentLength then h.number else BodyLength(vs)
    ensures BodyType(vs + [v]) == if h.id == ContentType then h.text else BodyType(vs)
    ensures (MethodFromCSeq(vs + [v]) ==
      if h.id != CSeq then MethodFromCSeq(vs) else if h.method_ == None then 0 else h.method_.value)
  {
    hide Last;
    LastStep(vs, v, ContentLength);
    LastStep(vs, v, ContentType);
    LastStep(vs, v, CSeq);
  }

  function Parsed(line: string): seq<Header> {
    if ParseHeader(line).Some? then [ParseHeader(line).value] else []
  }

  /** One turn of a header loop. */
  lemma Turn(input: string, p: Cursor)
    requires AllFit(Lines(input, p).0)
    ensures var t, next := Tok(Left(input, p), CRLF), After(input, CRLF, p);
      && (t == "" ==> Lines(input, p) == ([], next))
      && (t != "" ==> (
            && LineFits(t) && AllFit(Lines(input, next).0) && Lines(input, p).1 == Lines(input, next).1
            && ParseSome(Lines(input, p).0) == Parsed(t) + ParseSome(Lines(input, next).0)
            && (AllParse(Lines(input, p).0) <==> ParseHeader(t).Some? && AllParse(Lines(input, next).0))
            && |Left(input, next)| < |Left(input, p)|))
  {
    hide Tok, After, Left, Lines, LineFits, ParseHeader, ParseSome, AllFit, AllParse;
    var t, next := Tok(Left(input, p), CRLF), After(input, CRLF, p);
    LinesHere(input, p);
    if t != "" {
      FitStep(t, Lines(input, next).0);
      ParseStep(t, Lines(input, next).0);
    }
  }

  lemma NoLines()
    ensures ParseSome([]) == [] && AllParse([])
  {
  }

  /** The header loop of a request, from the line after the first to the cursor behind
      the empty one. Lines that are not understood are passed over. */
  method RequestHeaders(list: HeaderList, input: string, start: Cursor)
    returns (contentLength: SipHeader?, contentType: SipHeader?, pos: Cursor)
    requires list.Holds([]) && AllFit(Lines(input, start).0)
    modifies list, list.lastHeader, list.shared
    ensures list.Holds(ParseSome(Lines(input, start).0)) && pos == Lines(input, start).1
    ensures Kept(contentLength, contentType, ParseSome(Lines(input, start).0))
  {
    hide Tok, After, Left, Lines, ParseHeader, Kept, LineFits, AllFit, ParseSome, Parsed, AllParse, SipHeader.Valid,
      SipHeader.Value, HeaderList.Holds;
    ghost var all, p, vs := Lines(input, start).0, start, [];
    contentLength, contentType := null, null;
    NothingKept();
    var line;
    line, pos := NextToken(input, CRLF, start);
    while line != ""
      invariant list.Holds(vs) && ParseSome(all) == vs + ParseSome(Lines(input, p).0)
      invariant list.lastHeader == old(list.lastHeader) || fresh(list.lastHeader)
      invariant list.shared == old(list.shared) || fresh(list.shared)
      invariant line == Tok(Left(input, p), CRLF) && pos == After(input, CRLF, p)
      invariant AllFit(Lines(input, p).0) && Lines(input, p).1 == Lines(input, start).1
      invariant Kept(contentLength, contentType, vs)
      decreases |Left(input, p)|
    {
      Turn(input, p);
      contentLength, contentType := TakeLine(list, line, contentLength, contentType, vs);
      vs := vs + Parsed(line);
      p := pos;
      line, pos := NextToken(input, CRLF, pos);
    }
    Turn(input, p);
    NoLines();
    assert vs == ParseSome(all);
  }

  /** What both loops do with a header: keep it if it tells of the body, and append it. */
  method Take(list: HeaderList, header: SipHeader, contentLength: SipHeader?, contentType: SipHeader?, ghost vs: seq<Header>)
    returns (contentLength': SipHeader?, contentType': SipHeader?)
    requires list.Holds(vs) && header.Valid() && header !in list.headers && Kept(contentLength, contentType, vs)
    modifies list, list.lastHeader, list.shared
    ensures list.Holds(vs + [header.Value()]) && header.Value() == old(header.Value())
    ensures list.lastHeader == old(list.lastHeader) || fresh(list.lastHeader)
    ensures list.shared == old(list.shared) || fresh(list.shared)
    ensures Kept(contentLength', contentType', vs + [header.Value()])
  {
    hide HeaderList.Linked, HeaderList.Ended, HeaderList.Holding, SipHeader.Value, SipHeader.Valid, BodyLength, BodyType;
    contentLength' := if header.id == ContentLength then header else contentLength;
    contentType' := if header.id == ContentType then header else contentType;
    Newest(header, vs, header.Value());
    list.Append(header);
  }

  /** What the loop of a request does with a line. */
  method TakeLine(list: HeaderList, line: string, contentLength: SipHeader?, contentType: SipHeader?, ghost vs: seq<Header>)
    returns (contentLength': SipHeader?, contentType': SipHeader?)
    requires list.Holds(vs) && LineFits(line) && Kept(contentLength, contentType, vs)
    modifies list, list.lastHeader, list.shared
    ensures list.Holds(vs + Parsed(line)) && Kept(contentLength', contentType', vs + Parsed(line))
    ensures list.lastHeader == old(list.lastHeader) || fresh(list.lastHeader)
    ensures list.shared == old(list.shared) || fresh(list.shared)
  {
    hide ParseHeader, LineFits, Kept, HeaderList.Holds, SipHeader.Valid, SipHeader.Value;
    contentLength', contentType' := contentLength, contentType;
    var header := HeaderParse(line);
    if header != null {
      contentLength', contentType' := Take(list, header, contentLength, contentType, vs);
    } else {
      assert vs + Parsed(line) == vs;
    }
  }

  /** What the loop of a response does with a line. */
  method TakeResponseLine(list: HeaderList, line: string, contentLength: SipHeader?, contentType: SipHeader?, cseq: SipHeader?,
      ghost vs: seq<Header>)
    returns (ok: bool, contentLength': SipHeader?, contentType': SipHeader?, cseq': SipHeader?)
    requires list.Holds(vs) && LineFits(line) && Kept(contentLength, contentType, vs) && KeptMethod(cseq, vs)
    modifies list, list.lastHeader, list.shared
    ensures ok <==> ParseHeader(line).Some?
    ensures list.Holds(vs + Parsed(line)) && Kept(contentLength', contentType', vs + Parsed(line))
    ensures KeptMethod(cseq', vs + Parsed(line))
    ensures list.lastHeader == old(list.lastHeader) || fresh(list.lastHeader)
    ensures list.shared == old(list.shared) || fresh(list.shared)
  {
    hide ParseHeader, LineFits, Kept, KeptMethod, HeaderList.Holds, SipHeader.Valid, SipHeader.Value;
    contentLength', contentType', cseq' := contentLength, contentType, cseq;
    var header := HeaderParse(line);
    ok := header != null;
    if ok {
      cseq' := TakeCSeq(header, cseq, vs);
      contentLength', contentType' := Take(list, header, contentLength, contentType, vs);
    } else {
      assert vs + Parsed(line) == vs;
    }
  }

  /** sipster_sip_request_parse. A first line that does not parse gives no request. */
  method RequestParse(input: string, size: nat) returns (result: int, request: Request?)
    requires AllFit(HeaderLines(input))
    requires ParseRequest(input, size).Some? && ParseRequest(input, size).value.content.Some? ==>
      ParseRequest(input, size).value.content.value.length <= 1500
    ensures result == if ParseRequest(input, size) == None then RETURN_MESSAGE_PARSE_ERROR else RETURN_OK
    ensures ParseRequest(input, size) == None ==> request == null
    ensures (ParseRequest(input, size).Some? ==>
      && request != null && fresh(request) && fresh(request.headers)
      && request.headers.Holds(ParseRequest(input, size).value.headers)
      && request.line == ParseRequest(input, size).value.line && request.content == ParseRequest(input, size).value.content)
  {
    hide Tok, After, Left, Lines, ParseRequestLine, AllFit, ParseSome, Ltrim, BodyLength, BodyType, HeaderList.Holds;
    StartLeft(input);
    var pos := At(0);
    var line;
    line, pos := NextToken(input, CRLF, pos);
    var first := RequestParseLine(line);
    if first == None {
      return RETURN_MESSAGE_PARSE_ERROR, null;
    }
    request := new Request(first.value);
    var contentLength, contentType;
    contentLength, contentType, pos := RequestHeaders(request.headers, input, pos);
    if contentLength != null {
      if contentLength.number > 0 && pos.At? && pos.n + contentLength.number <= size {
        var bodyType := if contentType != null then contentType.text else "";
        var d;
        d, pos := GetRest(input, pos);
        d := Ltrim(d);
        request.content := Some(Content(bodyType, |d|, d));
      }
    }
    result := RETURN_OK;
  }

  /** The header loop of a response. A line that is not understood ends it, and the
      method of the CSeq header is kept. */
  method ResponseHeaders(list: HeaderList, input: string, start: Cursor)
    returns (ok: bool, contentLength: SipHeader?, contentType: SipHeader?, cseq: SipHeader?, pos: Cursor)
    requires list.Holds([]) && AllFit(Lines(input, start).0)
    modifies list, list.lastHeader, list.shared
    ensures ok <==> AllParse(Lines(input, start).0)
    ensures ok ==> list.Holds(ParseSome(Lines(input, start).0)) && pos == Lines(input, start).1
    ensures (ok ==>
      Kept(contentLength, contentType, ParseSome(Lines(input, start).0)) && KeptMethod(cseq, ParseSome(Lines(input, start).0)))
  {
    hide Tok, After, Left, Lines, ParseHeader, Kept, KeptMethod, LineFits, AllFit, ParseSome, Parsed, AllParse, SipHeader.Valid,
      SipHeader.Value, HeaderList.Holds;
    ghost var all, p, vs := Lines(input, start).0, start, [];
    contentLength, contentType, cseq := null, null, null;
    NothingKept();
    var line;
    line, pos := NextToken(input, CRLF, start);
    while line != ""
      invariant list.Holds(vs) && ParseSome(all) == vs + ParseSome(Lines(input, p).0)
      invariant list.lastHeader == old(list.lastHeader) || fresh(list.lastHeader)
      invariant list.shared == old(list.shared) || fresh(list.shared)
      invariant line == Tok(Left(input, p), CRLF) && pos == After(input, CRLF, p)
      invariant AllFit(Lines(input, p).0) && Lines(input, p).1 == Lines(input, start).1
      invariant AllParse(all) <==> AllParse(Lines(input, p).0)
      invariant Kept(contentLength, contentType, vs) && KeptMethod(cseq, vs)
      decreases |Left(input, p)|
    {
      Turn(input, p);
      ok, contentLength, contentType, cseq := TakeResponseLine(list, line, contentLength, contentType, cseq, vs);
      if !ok {
        return;
      }
      vs := vs + Parsed(line);
      p := pos;
      line, pos := NextToken(input, CRLF, pos);
    }
    Turn(input, p);
    NoLines();
    assert vs == ParseSome(all);
    ok := true;
  }

  method TakeCSeq(header: SipHeader, cseq: SipHeader?, ghost vs: seq<Header>) returns (cseq': SipHeader?)
    requires KeptMethod(cseq, vs)
    ensures KeptMethod(cseq', vs + [header.Value()])
  {
    hide SipHeader.Value, MethodFromCSeq;
    cseq' := if header.id == CSeq then header else cseq;
    Newest(header, vs, header.Value());
  }

  /** sipster_sip_response_parse. */
  method ResponseParse(input: string, size: nat) returns (result: int, response: Response?)
    requires AllFit(HeaderLines(input))
    requires ParseResponse(input, size).Some? && ParseResponse(input, size).value.content.Some? ==>
      ParseResponse(input, size).value.content.value.length <= 1500
    ensures result == if ParseResponse(input, size) == None then RETURN_MESSAGE_PARSE_ERROR else RETURN_OK
    ensures ParseResponse(input, size) == None ==> response == null
    ensures (ParseResponse(input, size).Some? ==>
      && response != null && fresh(response) && fresh(response.headers)
      && response.headers.Holds(ParseResponse(input, size).value.headers)
      && response.line == ParseResponse(input, size).value.line && response.content == ParseResponse(input, size).value.content)
  {
    hide Tok, After, Left, Lines, ParseStatusLine, AllFit, ParseSome, Ltrim, BodyLength, BodyType, AllParse,
      MethodFromCSeq, HeaderList.Holds;
    StartLeft(input);
    var pos := At(0);
    var line;
    line, pos := NextToken(input, CRLF, pos);
    var first := ResponseParseLine(line);
    if first == None {
      return RETURN_MESSAGE_PARSE_ERROR, null;
    }
    response := new Response(StatusLine(first.value.0, first.value.1, 0));
    var ok, contentLength, contentType, cseq;
    ok, contentLength, contentType, cseq, pos := ResponseHeaders(response.headers, input, pos);
    if !ok {
      return RETURN_MESSAGE_PARSE_ERROR, null;
    }
    if cseq != null {
      response.line := response.line.(method_ := if cseq.method_.Some? then cseq.method_.value else 0);
    }
    if contentLength != null {
      if contentLength.number > 0 && pos.At? && pos.n + contentLength.number <= size {
        var bodyType := if contentType != null then contentType.text else "";
        var d;
        d, pos := GetRest(input, pos);
        d := Ltrim(d);
        response.content := Some(Content(bodyType, contentLength.number, Cut(d, contentLength.number)));
      }
    }
    result := RETURN_OK;
  }

  // -------------------------------------------------------------------- printing

  /** How many leaves there are up to the last, which its index tells as far as it reaches. */
  ghost predicate Counted(list: HeaderList, k: nat)
    reads list, list.lastHeader
  {
    if k == 0 then list.lastHeader == null
    else list.lastHeader != null && list.lastHeader.index == (k - 1) % 65536
  }

  lemma CountedNext(k: nat)
    requires k > 0
    ensures ((k - 1) % 65536 + 1) % 65536 == k % 65536
  {
    NextIndex(k - 1);
  }

  lemma CountedAll(list: HeaderList)
    requires list.Valid()
    ensures Counted(list, |list.Values()|)
  {
    if list.leaves != [] { assert list.LeafOk(|list.leaves| - 1); }
  }

  /** The search finds nothing exactly when no header has the identity. */
  lemma HasMeans(list: HeaderList, id: HeaderId)
    requires list.Holding()
    ensures CountOf(list.Ids(), id) > 0 <==> Has(list.Values(), id)
  {
    hide SipHeader.Valid, SipHeader.Value, CountOf;
    var ids, vs := list.Ids(), list.Values();
    CountFirst(ids, id);
    forall j | 0 <= j < |ids| ensures vs[j].id == ids[j] { ValueId(list.headers[j]); }
    var i := FirstOf(ids, id);
    if i < |ids| { assert vs[i].id == id; }
  }

  lemma ValueId(h: SipHeader)
    ensures h.Value().id == h.id
  {
  }

  /** The search of the printers, which use only whether it finds anything. */
  method Missing(list: HeaderList, id: HeaderId, ghost vs: seq<Header>) returns (missing: bool)
    requires list.Shows(vs)
    ensures list.Shows(vs) && missing == !Has(vs, id)
  {
    hide HeaderList.Linked, HeaderList.Holding, HeaderList.Ended, Has, CountOf, Copied, Picked;
    HasMeans(list, id);
    var h, copies := list.GetHeader(id);
    missing := h == null;
  }

  /** Appending behind the last leaf, counted. */
  method AppendCounted(list: HeaderList, header: SipHeader, ghost vs: seq<Header>, ghost k: nat)
    requires list.Shows(vs) && Counted(list, k) && header.Valid() && header !in list.headers
    modifies list`lastHeader, list`leaves, list`headers, list`nodes, list`shared, list.lastHeader, list.shared
    ensures list.Shows(if vs == [] then [] else vs + [old(header.Value())]) && Counted(list, k + 1)
    ensures fresh(list.lastHeader) && (list.shared == old(list.shared) || fresh(list.shared))
    ensures list.leaves == if old(list.leaves) == [] then [] else old(list.leaves) + [list.lastHeader]
  {
    hide HeaderList.Linked, HeaderList.Holding, HeaderList.Ended, SipHeader.Valid, SipHeader.Value;
    list.AppendLast(header);
    if k > 0 { CountedNext(k); }
  }

  method AddType(list: HeaderList, content: Content, ghost vs: seq<Header>, ghost k: nat) returns (ghost k': nat)
    requires list.Shows(vs) && Counted(list, k)
    modifies list`lastHeader, list`leaves, list`headers, list`nodes, list`shared, list.lastHeader, list.shared
    ensures list.Shows(if vs == [] then [] else WithType(vs, Some(content)))
    ensures k' == (if Has(vs, ContentType) then k else k + 1) && Counted(list, k')
    ensures list.lastHeader == old(list.lastHeader) || fresh(list.lastHeader)
    ensures list.shared == old(list.shared) || fresh(list.shared)
    ensures forall l <- list.leaves :: l in old(list.leaves) || fresh(l)
  {
    hide HeaderList.Shows, SipHeader.Valid, SipHeader.Value, Has;
    k' := k;
    var missing := Missing(list, ContentType, vs);
    if missing {
      var contentTypeHeader := new SipHeader(ContentType);
      contentTypeHeader.text := content.contentType;
      TypeValue(contentTypeHeader);
      AppendCounted(list, contentTypeHeader, vs, k);
      k' := k + 1;
    }
  }

  lemma TypeValue(h: SipHeader)
    requires h.id == ContentType && h.params == [] && h.first == null
    ensures h.Valid() && h.Value() == Header(ContentType, Address(h.text, []))
  {
    NoRecord();
  }

  method AddLength(list: HeaderList, contentLen: nat, ghost content: Option<Content>, ghost vs: seq<Header>, ghost k: nat)
    returns (ghost k': nat)
    requires list.Shows(vs) && Counted(list, k) && contentLen == if content.Some? then content.value.length else 0
    modifies list`lastHeader, list`leaves, list`headers, list`nodes, list`shared, list.lastHeader, list.shared
    ensures list.Shows(if vs == [] then [] else WithLength(vs, content))
    ensures k' == (if Has(vs, ContentLength) then k else k + 1) && Counted(list, k')
    ensures forall l <- list.leaves :: l in old(list.leaves) || fresh(l)
  {
    hide HeaderList.Shows, SipHeader.Valid, SipHeader.Value, Has;
    k' := k;
    var missing := Missing(list, ContentLength, vs);
    if missing {
      var contentLengthHeader := new SipHeader(ContentLength);
      contentLengthHeader.number := contentLen;
      LengthValue(contentLengthHeader);
      AppendCounted(list, contentLengthHeader, vs, k);
      k' := k + 1;
    }
  }

  lemma LengthValue(h: SipHeader)
    requires h.id == ContentLength && h.params == [] && h.first == null
    ensures h.Valid() && h.Value() == Header(ContentLength, Number(h.number))
  {
    NoRecord();
  }

  /** `strncpy` behind what the buffer holds already. */
  method Write(output: array<char>, offset: nat, s: string) returns (offset': nat)
    requires offset + |s| <= output.Length
    modifies output
    ensures offset' == offset + |s| && output[..offset'] == old(output[..offset]) + s
  {
    forall i | 0 <= i < |s| { output[offset + i] := s[i]; }
    offset' := offset + |s|;
  }

  /** The first `i` leaves have been printed and emptied. */
  ghost predicate Emptied(leaves: seq<Leaf>, headers: seq<SipHeader>, i: nat)
    requires |leaves| == |headers|
    reads leaves
  {
    forall j :: 0 <= j < |leaves| ==>
      && leaves[j].place == j && leaves[j].next == (if j + 1 < |leaves| then leaves[j + 1] else null)
      && leaves[j].header == if j < i then null else headers[j]
  }

  method EmptyLeaf(leaf: Leaf, ghost leaves: seq<Leaf>, ghost headers: seq<SipHeader>, ghost i: nat)
    requires |leaves| == |headers| && i < |leaves| && leaf == leaves[i] && Emptied(leaves, headers, i)
    modifies leaf`header
    ensures Emptied(leaves, headers, i + 1) && leaf.next == if i + 1 < |leaves| then leaves[i + 1] else null
  {
    leaf.header := null;
  }

  lemma NoneEmptied(list: HeaderList)
    requires list.Linked()
    ensures |list.leaves| == |list.headers| && Emptied(list.leaves, list.headers, 0)
    ensures list.firstHeader == if list.leaves == [] then null else list.leaves[0]
  {
    forall j | 0 <= j < |list.leaves|
      ensures list.leaves[j].place == j && list.leaves[j].header == list.headers[j]
      ensures list.leaves[j].next == (if j + 1 < |list.leaves| then list.leaves[j + 1] else null)
    {
      assert list.LeafOk(j);
    }
  }

  method PrintOne(header: SipHeader, output: array<char>, offset: nat) returns (offset': nat)
    requires header.Valid() && Shaped(header.Value()) && offset + |PrintHeader(header.Value())| + 2 <= output.Length
    modifies output
    ensures offset' == offset + |PrintHeader(header.Value())| + 2
    ensures output[..offset'] == old(output[..offset]) + PrintHeader(header.Value()) + CRLF
  {
    hide PrintHeader, Shaped, SipHeader.Value, SipHeader.Valid;
    var headerLine := HeaderPrint(header);
    offset' := Write(output, offset, headerLine);
    offset' := Write(output, offset', CRLF);
  }

  /** The header loop of both printers. A printed header is destroyed and its leaf left empty. */
  method PrintHeaders(list: HeaderList, output: array<char>, offset: nat, ghost vs: seq<Header>) returns (offset': nat)
    requires list.Shows(vs) && AllShaped(vs) && offset + |HeadersText(vs)| <= output.Length
    modifies output, list.leaves
    ensures offset' == offset + |HeadersText(vs)|
    ensures output[..offset'] == old(output[..offset]) + HeadersText(vs)
    ensures forall l <- list.leaves :: l.header == null
  {
    hide HeadersText, PrintHeader, Shaped, SipHeader.Value, SipHeader.Valid, HeaderList.Linked, HeaderList.Ended, Emptied,
      HeaderList.ValuesTo;
    ghost var leaves, headers, all := list.leaves, list.headers, HeadersText(vs);
    NoneEmptied(list);
    var header := list.firstHeader;
    ghost var i := 0;
    offset' := offset;
    assert vs[0..] == vs;
    while header != null
      invariant i <= |leaves| == |headers| == |vs| && header == if i < |leaves| then leaves[i] else null
      invariant Emptied(leaves, headers, i) && list.Holding() && list.Values() == vs
      invariant offset' + |HeadersText(vs[i..])| == offset + |all|
      invariant output[..offset'] + HeadersText(vs[i..]) == old(output[..offset]) + all
      decreases |leaves| - i
    {
      HeadersStep(vs, i);
      LeafHeader(leaves, headers, i);
      ghost var was, more := output[..offset'], HeadersText(vs[i + 1..]);
      Joins(was, PrintHeader(vs[i]), CRLF, more);
      offset' := PrintOne(header.header, output, offset');
      EmptyLeaf(header, leaves, headers, i);
      header := header.next;
      i := i + 1;
    }
    HeadersEnd(vs);
    AllEmptied(leaves, headers);
  }

  lemma LeafHeader(leaves: seq<Leaf>, headers: seq<SipHeader>, i: nat)
    requires |leaves| == |headers| && i < |leaves| && Emptied(leaves, headers, i)
    ensures leaves[i].header == headers[i]
  {
  }

  lemma AllEmptied(leaves: seq<Leaf>, headers: seq<SipHeader>)
    requires |leaves| == |headers| && Emptied(leaves, headers, |leaves|)
    ensures forall l <- leaves :: l.header == null
  {
  }

  lemma Joins(a: string, b: string, c: string, d: string)
    ensures a + (b + c + d) == a + b + c + d
  {
  }

  lemma HeadersStep(vs: seq<Header>, i: nat)
    requires i < |vs| && AllShaped(vs)
    ensures AllShaped(vs[i..]) && AllShaped(vs[i + 1..]) && Shaped(vs[i])
    ensures HeadersText(vs[i..]) == PrintHeader(vs[i]) + CRLF + HeadersText(vs[i + 1..])
  {
    hide PrintHeader, Shaped;
    assert vs[i..][1..] == vs[i + 1..];
  }

  lemma HeadersEnd(vs: seq<Header>)
    requires AllShaped(vs)
    ensures HeadersText(vs[|vs|..]) == ""
  {
  }

  /** The output buffer of a message: 500 characters, 200 for each header that its last
      index tells of, and the body. */
  function Room(headers: seq<Header>, content: Option<Content>): nat {
    var k := |WithLength(WithType(headers, content), content)|;
    500 + ((k - 1) % 65536 + 1) * 200 + if content.Some? then content.value.length else 0
  }

  lemma {:induction false} HeadersShort(headers: seq<Header>)
    requires AllShaped(headers) && forall h <- headers :: |PrintHeader(h)| <= 198
    ensures |HeadersText(headers)| <= 200 * |headers|
  {
    hide PrintHeader, Shaped;
    if headers != [] { HeadersShort(headers[1..]); }
  }

  /** The buffer has room for the whole message and its terminator wherever no printed header
      is longer than 198 characters and the last index still counts them all. */
  lemma RoomEnough(line: string, headers: seq<Header>, content: Option<Content>)
    requires AllShaped(Printed(headers, content)) && forall h <- Printed(headers, content) :: |PrintHeader(h)| <= 198
    requires |headers| + 2 <= 65536
    ensures |MessageTextOf(line, Printed(headers, content), content)| < Room(headers, content)
  {
    hide PrintHeader, Shaped, HeadersText, WithType, WithLength, BodyText, Has;
    var hs := Printed(headers, content);
    HeadersShort(hs);
    CompletedCount(headers, content);
    MessageReads.BodyTextMeans(content);
    var k := |WithLength(WithType(headers, content), content)|;
    if headers == [] { HasNothing(); }
    assert |hs| <= k && 1 <= k <= 65536;
    assert (k - 1) % 65536 == k - 1;
  }

  lemma CompletedCount(headers: seq<Header>, content: Option<Content>)
    ensures var t := WithType(headers, content);
      && |t| == |headers| + (if content.Some? && !Has(headers, ContentType) then 1 else 0)
      && |WithLength(t, content)| == |t| + (if Has(headers, ContentLength) then 0 else 1)
      && (headers != [] ==> Has(t, ContentLength) == Has(headers, ContentLength))
      && Has([], ContentLength) == Has([], ContentType) == false
  {
    hide Has;
    HasWithType(headers, content);
    assert !Has([], ContentLength) && !Has([], ContentType) by { HasNothing(); }
  }

  lemma HasNothing()
    ensures !Has([], ContentLength) && !Has([], ContentType)
  {
  }

  /** The headers that both printers add, and the size of the buffer that they then take. */
  method Complete(list: HeaderList, content: Option<Content>, ghost vs: seq<Header>) returns (allocationSize: nat)
    requires list.Holds(vs)
    modifies list`lastHeader, list`leaves, list`headers, list`nodes, list`shared, list.lastHeader, list.shared
    ensures list.Shows(Printed(vs, content)) && allocationSize == Room(vs, content)
    ensures forall l <- list.leaves :: l in old(list.leaves) || fresh(l)
  {
    hide HeaderList.Holds, HeaderList.Shows, Has, WithType, WithLength, Counted, Room;
    HeldCounted(list, vs);
    CompletedCount(vs, content);
    RoomIs(vs, content);
    ghost var k, t := |vs|, if vs == [] then [] else WithType(vs, content);
    var contentLen := 0;
    if content.Some? {
      contentLen := content.value.length;
      k := AddType(list, content.value, vs, k);
    } else {
      assert t == vs by { NoType(vs); }
    }
    k := AddLength(list, contentLen, content, t, k);
    allocationSize := Measure(list, contentLen, k);
  }

  lemma HeldCounted(list: HeaderList, vs: seq<Header>)
    requires list.Holds(vs)
    ensures list.Shows(vs) && Counted(list, |vs|)
  {
    CountedAll(list);
  }

  /** The size by the leaves that the printers have counted. */
  lemma RoomIs(headers: seq<Header>, content: Option<Content>)
    ensures var k := |headers| + if content.Some? && !Has(headers, ContentType) then 1 else 0;
      var n := if Has(if headers == [] then [] else WithType(headers, content), ContentLength) then k else k + 1;
      Room(headers, content)
        == 500 + (if n == 0 then 0 else ((n - 1) % 65536 + 1) * 200) + if content.Some? then content.value.length else 0
  {
    hide Has, WithType, WithLength;
    CompletedCount(headers, content);
  }

  method Measure(list: HeaderList, contentLen: nat, ghost k: nat) returns (allocationSize: nat)
    requires Counted(list, k)
    ensures allocationSize == 500 + (if k == 0 then 0 else ((k - 1) % 65536 + 1) * 200) + contentLen
  {
    allocationSize := 500;
    if list.lastHeader != null {
      allocationSize := allocationSize + (list.lastHeader.index + 1) * 200;
    }
    allocationSize := allocationSize + contentLen;
  }

  /** Both printers, after the first line has been formatted: the missing headers are
      added, the buffer is taken and filled, and the headers are gone. */
  method MessagePrint(list: HeaderList, content: Option<Content>, line: string, ghost vs: seq<Header>) returns (text: string)
    requires list.Holds(vs) && AllShaped(vs) && (content.Some? ==> content.value.length <= 1500)
    requires AllShaped(Printed(vs, content)) && |MessageTextOf(line, Printed(vs, content), content)| < Room(vs, content)
    modifies list, list.lastHeader, list.shared, list.leaves
    ensures text == MessageTextOf(line, Printed(vs, content), content)
    ensures forall l <- list.leaves :: l.header == null
  {
    hide HeaderList.Holds, HeaderList.Shows, MessageTextOf, AllShaped, Room, Printed;
    var allocationSize := Complete(list, content, vs);
    assert forall i :: 0 <= i < |list.leaves| ==> list.leaves[i] in list.leaves;
    text := Fill(list, content, line, allocationSize, Printed(vs, content));
  }

  lemma NoType(vs: seq<Header>)
    ensures WithType(vs, None) == vs
  {
  }

  method Fill(list: HeaderList, content: Option<Content>, line: string, allocationSize: nat, ghost vs: seq<Header>) returns (text: string)
    requires list.Shows(vs) && AllShaped(vs) && |MessageTextOf(line, vs, content)| < allocationSize
    modifies list.leaves
    ensures text == MessageTextOf(line, vs, content)
    ensures forall l <- list.leaves :: l.header == null
  {
    hide HeaderList.Shows, HeadersText, Shaped, BodyText, Cut;
    var output := new char[allocationSize];
    var offset := Write(output, 0, Cut(line, 149));
    offset := Write(output, offset, CRLF);
    offset := PrintHeaders(list, output, offset, vs);
    offset := Write(output, offset, CRLF);
    offset := Write(output, offset, BodyText(content));
    output[offset] := '\0';
    text := output[..offset];
  }

  /** sipster_sip_request_print. It needs a buffer that is large enough, and leaves no
      header behind. */
  method RequestPrint(request: Request, ghost vs: seq<Header>) returns (text: string)
    requires request.headers.Holds(vs) && AllShaped(vs) && (request.content.Some? ==> request.content.value.length <= 1500)
    requires |PrintRequest(Message(request.line, vs, request.content))| < Room(vs, request.content)
    modifies request.headers, request.headers.lastHeader, request.headers.shared, request.headers.leaves
    ensures text == PrintRequest(Message(request.line, vs, request.content))
    ensures forall l <- request.headers.leaves :: l.header == null
  {
    hide HeaderList.Holds, Printed, MessageTextOf, AllShaped, Room;
    PrintedShaped(vs, request.content);
    var l := request.line;
    text := MessagePrint(request.headers, request.content, MethodName(l.method_) + " " + l.uri + " " + l.version, vs);
  }

  method ResponsePrint(response: Response, ghost vs: seq<Header>) returns (text: string)
    requires response.headers.Holds(vs) && AllShaped(vs) && (response.content.Some? ==> response.content.value.length <= 1500)
    requires |PrintResponse(Message(response.line, vs, response.content))| < Room(vs, response.content)
    modifies response.headers, response.headers.lastHeader, response.headers.shared, response.headers.leaves
    ensures text == PrintResponse(Message(response.line, vs, response.content))
    ensures forall l <- response.headers.leaves :: l.header == null
  {
    hide HeaderList.Holds, Printed, MessageTextOf, AllShaped, Room;
    PrintedShaped(vs, response.content);
    var l := response.line;
    text := MessagePrint(response.headers, response.content, l.version + " " + Code(l.status) + " " + StatusPhrase(l.status), vs);
  }

  // ------------------------------------------------------------- printed and parsed

  lemma {:induction false} PrintedLinesFit(headers: seq<Header>)
    requires forall i :: 0 <= i < |headers| ==> Printable(headers[i])
    ensures AllShaped(headers) && AllFit(LinesOf(headers))
  {
    hide Printable, Line, Shaped, Fits, Lookup, Tok, Skip, Ltrim;
    forall i | 0 <= i < |headers| ensures Shaped(headers[i]) { PrintableShaped(headers[i]); }
    if headers != [] {
      PrintedFits(headers[0]);
      PrintedLinesFit(headers[1..]);
    }
  }

  /** A request that is printed and parsed again. */
  method Resend(request: Request, ghost vs: seq<Header>) returns (again: Request)
    requires request.headers.Holds(vs) && RequestLineOk(request.line) && Sendable(vs, request.content)
    requires AllShaped(vs) && |PrintRequest(Message(request.line, vs, request.content))| < Room(vs, request.content)
    modifies request.headers, request.headers.lastHeader, request.headers.shared, request.headers.leaves
    ensures fresh(again) && again.line == old(request.line)
    ensures AllShaped(Printed(vs, request.content)) && again.headers.Holds(Printed(vs, request.content))
    ensures again.content == BodyBack(Printed(vs, request.content), request.content)
    ensures again.content == request.content <==> Survives(vs, request.content)
  {
    hide HeaderList.Holds, PrintRequest, ParseRequest, Printed, Printable, Room, RequestLineOk, HeaderLines, AllFit, BodyBack, Survives;
    ghost var m := Message(request.line, vs, request.content);
    PrintedShaped(vs, request.content);
    var text := RequestPrint(request, vs);
    RequestRoundTrip(m);
    PrintedFit(m);
    BodyBackSmall(Printed(vs, m.content), m.content);
    var result, parsed := RequestParse(text, |text|);
    again := parsed;
  }

  lemma PrintedFit(m: Message<RequestLine>)
    requires RequestLineOk(m.line) && Sendable(m.headers, m.content) && AllShaped(m.headers)
    ensures AllFit(HeaderLines(PrintRequest(m)))
  {
    hide Printable, Printed, RequestLineText, MessageTextOf, HeaderLines, AllFit, BodyLength, Free;
    RequestLineReadBack(m.line);
    BodyReadBack(RequestLineText(m.line), m.headers, m.content);
    PrintedLinesFit(Printed(m.headers, m.content));
  }

  /** A response that is printed and parsed again. */
  method ResendResponse(response: Response, ghost vs: seq<Header>) returns (again: Response)
    requires response.headers.Holds(vs) && StatusLineOk(response.line) && Sendable(vs, response.content)
    requires AllShaped(vs) && |PrintResponse(Message(response.line, vs, response.content))| < Room(vs, response.content)
    modifies response.headers, response.headers.lastHeader, response.headers.shared, response.headers.leaves
    ensures AllShaped(Printed(vs, response.content)) && fresh(again) && again.headers.Holds(Printed(vs, response.content))
    ensures again.line == old(response.line).(method_ := MethodFromCSeq(Printed(vs, response.content)))
    ensures again.content == BodyBack(Printed(vs, response.content), response.content)
    ensures again.content == response.content <==> Survives(vs, response.content)
  {
    hide HeaderList.Holds, PrintResponse, ParseResponse, Printed, Printable, Room, StatusLineOk, HeaderLines, AllFit, BodyBack, Survives, MethodFromCSeq;
    ghost var m := Message(response.line, vs, response.content);
    PrintedShaped(vs, response.content);
    var text := ResponsePrint(response, vs);
    ResponseRoundTrip(m);
    PrintedResponseFit(m);
    BodyBackSmall(Printed(vs, m.content), m.content);
    var result, parsed := ResponseParse(text, |text|);
    again := parsed;
  }

  lemma PrintedResponseFit(m: Message<StatusLine>)
    requires StatusLineOk(m.line) && Sendable(m.headers, m.content) && AllShaped(m.headers)
    ensures AllFit(HeaderLines(PrintResponse(m)))
  {
    hide Printable, Printed, StatusLineText, MessageTextOf, HeaderLines, AllFit, BodyLength, Free;
    StatusLineReadBack(m.line);
    BodyReadBack(StatusLineText(m.line), m.headers, m.content);
    PrintedLinesFit(Printed(m.headers, m.content));
  }

  lemma BodyBackSmall(headers: seq<Header>, content: Option<Content>)
    requires content.Some? ==> ContentOk(content.value)
    ensures BodyBack(headers, content).Some? ==> BodyBack(headers, content).value.length <= 1500
  {
  }
}
