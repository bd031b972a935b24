/** What messages are read as, whoever wrote them (src/sip.cpp): first lines by their words,
    messages by their lines, and what the printer writes of contents of any length. */
module MessageReads {
  import opened Tokens
  import opened SipTables
  import opened HeaderText
  import opened MessageText
  import HeaderReads

  // ----------------------------------------------------------------- first lines

  /** The words of a request line are its method, its URI and, all that is left, its version.
      It is refused exactly if no method has the first word as its name. */
  lemma RequestLineRead(word: string, uri: string, version: string)
    requires Free(word, " ") && Free(uri, " ")
    ensures (var r := ParseRequestLine(word + " " + (uri + " " + version));
      && (r == None <==> forall m: Method :: MethodName(m) != word)
      && (r.Some? ==> MethodName(r.value.method_) == word && r.value.uri == uri && r.value.version == version))
  {
    hide Tok, Skip, MethodName, MethodFrom;
    TokAt(word, " ", uri + " " + version);
    TokAt(uri, " ", version);
    MethodExact(word);
  }

  /** Missing words are empty. */
  lemma ShortRequestLine(word: string, uri: string)
    requires Free(word, " ") && Free(uri, " ")
    ensures (var r := ParseRequestLine(word + " " + uri);
      (r == None <==> forall m: Method :: MethodName(m) != word) && (r.Some? ==> r.value.uri == uri && r.value.version == ""))
    ensures (var r := ParseRequestLine(word);
      (r == None <==> forall m: Method :: MethodName(m) != word) && (r.Some? ==> r.value.uri == r.value.version == ""))
  {
    hide Tok, Skip, MethodName, MethodFrom;
    TokAt(word, " ", uri);
    TokAll(word, " ");
    TokAll(uri, " ");
    NoTok(" ");
    MethodExact(word);
  }

  lemma MethodExact(word: string)
    ensures MethodOf(word) == None <==> forall m: Method :: MethodName(m) != word
    ensures MethodOf(word).Some? ==> MethodName(MethodOf(word).value) == word
  {
    hide MethodName, MethodFrom;
    HeaderReads.MethodMeans(word, 0);
  }

  /** A status line is read by its code alone, whatever the phrase. It is refused exactly if
      the code is not in the table. */
  lemma StatusLineRead(version: string, code: string, phrase: string)
    requires Free(version, " ") && Free(code, " ")
    ensures (var r := ParseStatusLine(version + " " + (code + " " + phrase));
      && (r == None <==> forall s: Status :: StatusCode(s) != Atoi(code))
      && (r.Some? ==> r.value.0 == version && StatusCode(r.value.1) == Atoi(code)))
  {
    hide Tok, Skip, StatusCode, StatusFrom, Atoi;
    TokAt(version, " ", code + " " + phrase);
    TokAt(code, " ", phrase);
    StatusMeans(Atoi(code), 0);
  }

  lemma {:induction false} StatusMeans(code: int, i: nat)
    requires i <= 71 && forall j: Status :: j < i ==> StatusCode(j) != code
    ensures StatusFrom(code, i).Some? ==> StatusCode(StatusFrom(code, i).value) == code
    ensures StatusFrom(code, i) == None ==> forall s: Status :: StatusCode(s) != code
    decreases 71 - i
  {
    hide StatusCode;
    if i < 71 && code != StatusCode(i) { StatusMeans(code, i + 1); }
  }

  // -------------------------------------------------------------------- messages

  /** A message by its lines. */
  function Written(line: string, lines: seq<string>, body: string): string {
    line + CRLF + (Terminated(lines) + CRLF + body)
  }

  lemma PartsRead(line: string, lines: seq<string>, body: string)
    requires Free(line, CRLF) && LinesOk(lines)
    ensures var text := Written(line, lines, body);
      && MessageText.FirstLine(text) == line && HeaderLines(text) == lines
      && BodyCursor(text) == At(|text| - |body|) && Left(text, BodyCursor(text)) == body
  {
    hide Find, Free, Lines, Terminated, LinesOk, Tok, Skip;
    var text := Written(line, lines, body);
    var rest := Terminated(lines) + CRLF + body;
    TokAt(line, CRLF, rest);
    AfterFirst(text, line, rest);
    assert text[|line| + 2..] == rest;
    LinesRead(text, |line| + 2, lines, body);
    assert text[|text| - |body|..] == body;
  }

  /** A request is refused exactly if its first line is. Lines that are not understood are
      passed over. There is a body exactly if the last Content-Length gives more than 0 and
      no more than there is; it is then all that is left, whatever the length says. */
  lemma RequestRead(line: string, lines: seq<string>, body: string)
    requires Free(line, CRLF) && LinesOk(lines)
    ensures (var text := Written(line, lines, body); var r := ParseRequest(text, |text|);
      && (r == None <==> ParseRequestLine(line) == None)
      && (r.Some? ==>
           && ParseRequestLine(line) == Some(r.value.line) && r.value.headers == ParseSome(lines)
           && (r.value.content.Some? <==> 0 < BodyLength(r.value.headers) <= |body|)
           && (r.value.content.Some? ==> r.value.content.value == Content(BodyType(r.value.headers), |Ltrim(body)|, Ltrim(body)))))
  {
    hide ParseRequestLine, Written, MessageText.FirstLine, HeaderLines, BodyCursor, Left, Ltrim, ParseSome, BodyLength, BodyType;
    PartsRead(line, lines, body);
  }

  /** A response is refused exactly if its first line or any other is not understood. Its body
      is cut to the length that the last Content-Length gives, and is said to have that length. */
  lemma ResponseRead(line: string, lines: seq<string>, body: string)
    requires Free(line, CRLF) && LinesOk(lines)
    ensures (var text := Written(line, lines, body); var r := ParseResponse(text, |text|);
      && (r.Some? <==> ParseStatusLine(line).Some? && forall i :: 0 <= i < |lines| ==> ParseHeader(lines[i]).Some?)
      && (r.Some? ==>
           && ParseStatusLine(line) == Some((r.value.line.version, r.value.line.status)) && r.value.headers == ParseSome(lines)
           && r.value.line.method_ == MethodFromCSeq(r.value.headers)
           && (var n := BodyLength(r.value.headers);
               && (r.value.content.Some? <==> 0 < n <= |body|)
               && (r.value.content.Some? ==> r.value.content.value == Content(BodyType(r.value.headers), n, Cut(Ltrim(body), n))))))
  {
    hide ParseStatusLine, Written, MessageText.FirstLine, HeaderLines, BodyCursor, Left, Ltrim, ParseSome, BodyLength, BodyType, ParseHeader,
      MethodFromCSeq, Cut;
    PartsRead(line, lines, body);
  }

  /** The headers are those of the understood lines, in order. */
  lemma {:induction false} SomeJoined(a: seq<string>, b: seq<string>)
    ensures ParseSome(a + b) == ParseSome(a) + ParseSome(b)
  {
    hide ParseHeader, ParseSome;
    if a == [] {
      assert a + b == b && ParseSome([]) == [] by { NothingParsed(); }
    } else {
      SomeJoined(a[1..], b);
      ParseStep(a[0], a[1..]);
      ParseStep(a[0], a[1..] + b);
      assert a == [a[0]] + a[1..] && a + b == [a[0]] + (a[1..] + b);
    }
  }

  lemma NothingParsed()
    ensures ParseSome([]) == []
  {
  }

  lemma SomeOne(line: string)
    ensures ParseSome([line]) == if ParseHeader(line).Some? then [ParseHeader(line).value] else []
  {
    hide ParseHeader;
    assert [line][1..] == [] && ParseSome([]) == [];
  }

  // -------------------------------------------------------------------- printing

  /** As many characters of the buffer as the body is said to be long, and zeros after it. */
  lemma BodyTextMeans(content: Option<Content>)
    ensures |BodyText(content)| == if content.Some? then content.value.length else 0
    ensures forall i :: 0 <= i < |BodyText(content)| ==>
      BodyText(content)[i] == if i < |content.value.data| then content.value.data[i] else '\0'
  {
  }

  /** The first line of a message is cut to 149 characters; headers and body begin in the
      lines after it, whatever they are. */
  lemma FirstLinePrinted(line: string, headers: seq<Header>, content: Option<Content>)
    requires Free(line, CRLF) && AllShaped(headers)
    ensures var text := MessageTextOf(line, headers, content);
      && MessageText.FirstLine(text) <= line && |MessageText.FirstLine(text)| == (if |line| <= 149 then |line| else 149)
      && text == MessageText.FirstLine(text) + CRLF + (HeadersText(headers) + CRLF + BodyText(content))
  {
    hide Tok, Skip, HeadersText, BodyText, Free;
    var first := Cut(line, 149);
    HeaderReads.FreeFront(line, first);
    var rest := HeadersText(headers) + CRLF + BodyText(content);
    assert MessageTextOf(line, headers, content) == first + CRLF + rest;
    TokAt(first, CRLF, rest);
  }
}
