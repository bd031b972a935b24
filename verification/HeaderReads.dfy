/** What header lines are read as, whoever wrote them (src/sip.cpp, src/sip_headers.cpp): a text
    is given by its parts, and each lemma says what the parser makes of any such text. */
module HeaderReads {
  import opened Tokens
  import opened SipTables
  import opened HeaderText

  // --------------------------------------------------------------------- numbers

  predicate AllDigits(d: string) {
    forall i :: 0 <= i < |d| ==> IsDigit(d[i])
  }

  predicate AllSpace(w: string) {
    forall i :: 0 <= i < |w| ==> IsSpace(w[i])
  }

  /** The number of a text of digits, from its last digit. */
  function Decimal(d: string): nat
    requires AllDigits(d)
  {
    if d == "" then 0 else 10 * Decimal(d[..|d| - 1]) + (d[|d| - 1] as int - '0' as int)
  }

  datatype Sign = NoSign | Plus | Minus

  function SignText(s: Sign): string {
    match s
    case NoSign => ""
    case Plus => "+"
    case Minus => "-"
  }

  /** What follows the sign and the digits of a number. */
  predicate Trails(sign: Sign, d: string, rest: string) {
    && (rest != "" ==> !IsDigit(rest[0]))
    && (sign == NoSign && d == "" && rest != "" ==> !IsSpace(rest[0]) && rest[0] !in "+-")
  }

  /** Leading white space goes, and nothing else. */
  lemma {:induction false} LtrimMeans(w: string, t: string)
    requires AllSpace(w) && (t != "" ==> !IsSpace(t[0]))
    ensures Ltrim(w + t) == t
  {
    hide IsSpace;
    if w == "" {
      assert w + t == t;
    } else {
      assert (w + t)[1..] == w[1..] + t;
      LtrimMeans(w[1..], t);
    }
  }

  lemma {:induction false} ValueRead(e: string, d: string, rest: string)
    requires AllDigits(e) && AllDigits(d) && AllDigits(e + d) && (rest != "" ==> !IsDigit(rest[0]))
    ensures Value(d + rest, Decimal(e)) == Decimal(e + d)
    decreases |d|
  {
    if d == "" {
      assert d + rest == rest && e + d == e;
    } else {
      var f := e + [d[0]];
      assert f[..|e|] == e && f + d[1..] == e + d && (d + rest)[1..] == d[1..] + rest;
      ValueRead(f, d[1..], rest);
    }
  }

  /** A number with its sign, whatever stands before and after it, has the value of its
      digits; a text without one is 0. */
  lemma NumberRead(w: string, sign: Sign, d: string, rest: string)
    requires AllSpace(w) && AllDigits(d) && Trails(sign, d, rest)
    ensures var n: int := Decimal(d); Atoi(w + (SignText(sign) + d + rest)) == if sign == Minus then -n else n
  {
    hide Ltrim, Value, IsDigit, IsSpace, Decimal;
    var t := SignText(sign) + d + rest;
    assert t != "" ==> !IsSpace(t[0]) by { SignStarts(sign, d, rest); }
    LtrimMeans(w, t);
    assert Value(d + rest, 0) == Decimal(d) by { FromNothing(d, rest); }
    if sign == NoSign {
      assert t == d + rest;
      SignStarts(sign, d, rest);
      ValueOnly(t);
    } else {
      assert t[1..] == d + rest;
    }
  }

  lemma FromNothing(d: string, rest: string)
    requires AllDigits(d) && (rest != "" ==> !IsDigit(rest[0]))
    ensures Value(d + rest, 0) == Decimal(d)
  {
    hide Value;
    ValueRead("", d, rest);
    assert "" + d == d;
  }

  lemma SignStarts(sign: Sign, d: string, rest: string)
    requires AllDigits(d) && Trails(sign, d, rest)
    ensures var t := SignText(sign) + d + rest; t != "" ==> !IsSpace(t[0]) && (sign == NoSign ==> t[0] !in "+-")
  {
    var t := SignText(sign) + d + rest;
    if t != "" { assert t[0] == if sign != NoSign then SignText(sign)[0] else if d != "" then d[0] else rest[0]; }
  }

  lemma ValueOnly(t: string)
    requires Ltrim(t) == t && (t != "" ==> t[0] !in "+-")
    ensures Atoi(t) == Value(t, 0)
  {
    hide Ltrim, Value;
  }

  /** Any text has those parts. */
  lemma NumberParts(s: string) returns (w: string, sign: Sign, d: string, rest: string)
    ensures s == w + (SignText(sign) + d + rest) && AllSpace(w) && AllDigits(d) && Trails(sign, d, rest)
  {
    var t;
    w, t := SpaceParts(s);
    sign := if t != "" && t[0] == '+' then Plus else if t != "" && t[0] == '-' then Minus else NoSign;
    var u := if sign == NoSign then t else t[1..];
    d, rest := DigitParts(u);
    assert t == SignText(sign) + d + rest;
  }

  lemma {:induction false} SpaceParts(s: string) returns (w: string, t: string)
    ensures s == w + t && AllSpace(w) && (t != "" ==> !IsSpace(t[0]))
  {
    if s == "" || !IsSpace(s[0]) {
      w, t := "", s;
    } else {
      w, t := SpaceParts(s[1..]);
      w := [s[0]] + w;
    }
  }

  lemma {:induction false} DigitParts(s: string) returns (d: string, rest: string)
    ensures s == d + rest && AllDigits(d) && (rest != "" ==> !IsDigit(rest[0]))
  {
    if s == "" || !IsDigit(s[0]) {
      d, rest := "", s;
    } else {
      d, rest := DigitParts(s[1..]);
      d := [s[0]] + d;
    }
  }

  /** A text is cut to its beginning, as much of it as there is room for. */
  lemma CutMeans(s: string, n: nat)
    ensures Cut(s, n) <= s && |Cut(s, n)| == if |s| <= n then |s| else n
  {
  }

  // ------------------------------------------------------------------ parameters

  /** A parameter as it may be written: a name alone; a name and a value; or these and
      whatever follows a second equals sign. */
  datatype Written =
    | Flag(name: string)
    | Pair(name: string, value: string)
    | Long(name: string, value: string, more: string)

  predicate Clean(w: Written) {
    && Free(w.name, ";=")
    && match w
       case Flag(n) => n != ""
       case Pair(n, v) => Free(v, ";=")
       case Long(n, v, m) => Free(v, ";=") && Free(m, ";")
  }

  function WrittenText(w: Written): string {
    match w
    case Flag(n) => n
    case Pair(n, v) => n + "=" + v
    case Long(n, v, m) => n + "=" + (v + "=" + m)
  }

  /** A flag has an empty value, and a second equals sign ends the value; both texts are
      cut to their buffers. */
  function Meaning(w: Written): Param {
    Param(Cut(w.name, 19), if w.Flag? then "" else Cut(w.value, 29))
  }

  lemma WrittenRead(w: Written)
    requires Clean(w)
    ensures ParamOf(WrittenText(w)) == Meaning(w) && WrittenText(w) != "" && Free(WrittenText(w), ";")
  {
    hide Tok, Skip, Cut;
    FreeOf(w.name, ";=", "=");
    match w {
      case Flag(n) =>
        TokAll(n, "=");
        NoTok("=");
      case Pair(n, v) =>
        FreeOf(v, ";=", "=");
        TokAt(n, "=", v);
        TokAll(v, "=");
      case Long(n, v, m) =>
        FreeOf(v, ";=", "=");
        TokAt(n, "=", v + "=" + m);
        TokAt(v, "=", m);
    }
  }

  /** Any text between semicolons is a parameter of one of these forms. */
  lemma WrittenParts(t: string) returns (w: Written)
    requires t != "" && Free(t, ";")
    ensures Clean(w) && WrittenText(w) == t
  {
    hide Find, Free;
    var n, r := AtEquals(t);
    if r == None {
      w := Flag(t);
    } else {
      var v, m := AtEquals(r.value);
      w := if m == None then Pair(n, v) else Long(n, v, m.value);
    }
  }

  /** A text before and behind its first equals sign. */
  lemma AtEquals(t: string) returns (a: string, b: Option<string>)
    requires Free(t, ";")
    ensures Free(a, ";=") && (b == None ==> a == t) && (b.Some? ==> t == a + "=" + b.value && Free(b.value, ";"))
  {
    hide Find;
    var k := Find(t, "=");
    a, b := t[..k], if k == |t| then None else Some(t[k + 1..]);
  }

  function WrittenList(ws: seq<Written>): string {
    if ws == [] then "" else if |ws| == 1 then WrittenText(ws[0]) else WrittenText(ws[0]) + ";" + WrittenList(ws[1..])
  }

  predicate AllClean(ws: seq<Written>) {
    forall i :: 0 <= i < |ws| ==> Clean(ws[i])
  }

  function Meanings(ws: seq<Written>): (ps: seq<Param>)
    ensures |ps| == |ws| && forall i :: 0 <= i < |ws| ==> ps[i] == Meaning(ws[i])
  {
    if ws == [] then [] else [Meaning(ws[0])] + Meanings(ws[1..])
  }

  /** Where a list ends: at the end of the text or at an empty parameter. */
  predicate Over(ws: seq<Written>, rest: string) {
    rest == "" || (rest[0] == ';' && (ws == [] || |rest| == 1 || rest[1] == ';'))
  }

  /** Any list of parameters is read in order, each as what it means, and nothing that
      follows an empty parameter is. */
  lemma {:induction false} ListRead(ws: seq<Written>, rest: string)
    requires AllClean(ws) && Over(ws, rest)
    ensures ParamsOf(WrittenList(ws) + rest) == Meanings(ws)
    decreases |ws|
  {
    hide ParamsOf, ParamOf, Meaning, WrittenText, Clean, Tok, Skip;
    if ws == [] {
      assert "" + rest == rest;
      NothingRead(rest);
    } else {
      var t, more := WrittenText(ws[0]), if |ws| == 1 then rest else ";" + (WrittenList(ws[1..]) + rest);
      WrittenRead(ws[0]);
      assert WrittenList(ws) + rest == t + more;
      NextParam(t, more);
      ParamsHead(t + more);
      if |ws| == 1 {
        NothingRead(if rest == "" then "" else rest[1..]);
      } else {
        ListRead(ws[1..], rest);
      }
    }
  }

  lemma NothingRead(rest: string)
    requires rest == "" || rest[0] == ';'
    ensures ParamsOf(rest) == []
  {
  }

  /** `ps` is what a text is read as, however it is taken for a list. */
  ghost predicate ReadAs(r: string, ps: seq<Param>) {
    forall ws, rest :: AllClean(ws) && Over(ws, rest) && r == WrittenList(ws) + rest ==> ps == Meanings(ws)
  }

  lemma ParamsReadAs(r: string)
    ensures ReadAs(r, ParamsOf(r))
  {
    forall ws, rest | AllClean(ws) && Over(ws, rest) && r == WrittenList(ws) + rest ensures ParamsOf(r) == Meanings(ws) { ListRead(ws, rest); }
  }

  /** Any text is such a list. */
  lemma {:induction false} ListParts(r: string) returns (ws: seq<Written>, rest: string)
    ensures r == WrittenList(ws) + rest && AllClean(ws) && Over(ws, rest)
    ensures ws == [] <==> r == "" || r[0] == ';'
    decreases |r|
  {
    hide Clean, WrittenText;
    var k := Find(r, ";");
    if k == 0 {
      ws, rest := [], r;
    } else {
      var t := r[..k];
      var w := WrittenParts(t);
      if k == |r| || k + 1 == |r| || r[k + 1] == ';' {
        ws, rest := [w], r[k..];
      } else {
        var more;
        more, rest := ListParts(r[k + 1..]);
        ws := [w] + more;
        assert ws[1..] == more && r == t + ";" + r[k + 1..];
      }
    }
  }

  // ----------------------------------------------------------------- the header table

  lemma {:induction false} LookupMeans(name: string, i: nat)
    requires i <= 16 && forall j :: 0 <= j < i ==> !Named(TABLE[j], name)
    ensures LookupFrom(name, i).Some? ==> Named(LookupFrom(name, i).value, name)
    ensures LookupFrom(name, i) == None ==> forall id :: !Named(id, name)
    ensures LookupFrom(name, i).Some? ==> forall j :: 0 <= j < HeaderText.Place(LookupFrom(name, i).value) ==> !Named(TABLE[j], name)
    decreases 16 - i
  {
    hide Name, ShortName;
    if i == 16 {
      forall id ensures !Named(id, name) { assert TABLE[HeaderText.Place(id)] == id; }
    } else if Named(TABLE[i], name) {
      TablePlace(i);
    } else {
      LookupMeans(name, i + 1);
    }
  }

  /** A line is understood exactly if some header but Call-Info and Session-ID, which have no
      parser, has the name before the colon as its name or short name. */
  lemma HeaderUnderstood(line: string)
    ensures ParseHeader(line).Some? <==> exists id :: Named(id, Tok(line, ":")) && id !in {CallInfo, SessionId}
    ensures ParseHeader(line).Some? ==> Named(ParseHeader(line).value.id, Tok(line, ":"))
  {
    hide Tok, ParseHeader, Name, ShortName, LookupFrom;
    var name := Tok(line, ":");
    Dispatched(line);
    LookupMeans(name, 0);
    var found := Lookup(name);
    if found.Some? && found.value in {CallInfo, SessionId} {
      assert HeaderText.Place(found.value) > 3 && TABLE[3] == CSeq;
      assert name == Name(found.value) by { NoShortName(found.value, name); }
      forall id | Named(id, name) ensures id == found.value { NamesDiffer(found.value, id); }
    }
  }

  lemma Dispatched(line: string)
    ensures ParseHeader(line).Some? <==> Lookup(Tok(line, ":")).Some? && Lookup(Tok(line, ":")).value !in {CallInfo, SessionId}
    ensures ParseHeader(line).Some? ==> Lookup(Tok(line, ":")) == Some(ParseHeader(line).value.id)
  {
    hide Tok, Skip, Lookup, Ltrim, ParamsOf, Atoi, MethodOf, Cut;
  }

  /** The empty name is that of CSeq, before either of them in the table. */
  lemma NoShortName(id: HeaderId, name: string)
    requires id in {CallInfo, SessionId} && Named(id, name) && !Named(CSeq, name)
    ensures name == Name(id)
  {
  }

  /** The compact forms of section 20 of RFC 3261. */
  lemma CompactForms()
    ensures Lookup("t") == Some(To) && Lookup("f") == Some(From) && Lookup("v") == Some(Via) && Lookup("l") == Some(ContentLength)
    ensures Lookup("c") == Some(ContentType) && Lookup("m") == Some(Contact) && Lookup("i") == Some(CallId)
  {
    ShortFound(To, 0);
    ShortFound(From, 0);
    ShortFound(Via, 0);
    ShortFound(ContentLength, 0);
    ShortFound(ContentType, 0);
    ShortFound(Contact, 0);
    ShortFound(CallId, 0);
  }

  /** The names that section 20 of RFC 3261 gives, and Session-ID. */
  lemma FullNames()
    ensures Lookup("To") == Some(To) && Lookup("From") == Some(From) && Lookup("Via") == Some(Via) && Lookup("CSeq") == Some(CSeq)
    ensures Lookup("Accept") == Some(Accept) && Lookup("Content-Length") == Some(ContentLength) && Lookup("Content-Type") == Some(ContentType)
    ensures Lookup("Contact") == Some(Contact) && Lookup("Call-ID") == Some(CallId) && Lookup("Call-Info") == Some(CallInfo)
    ensures Lookup("User-Agent") == Some(UserAgent) && Lookup("Session-ID") == Some(SessionId) && Lookup("Max-Forwards") == Some(MaxForwards)
    ensures Lookup("Allow") == Some(Allow) && Lookup("Supported") == Some(Supported) && Lookup("Content-Disposition") == Some(ContentDisposition)
  {
    hide Lookup;
    forall id ensures Lookup(Name(id)) == Some(id) { NameFound(id); }
    assert Name(To) == "To" && Name(Contact) == "Contact" && Name(Allow) == "Allow";
  }

  /** What the fields of a line that is understood are, by its header. */
  lemma FieldsByHeader(line: string)
    requires ParseHeader(line).Some?
    ensures (var h := ParseHeader(line).value;
      && (h.fields.Address? <==> h.id in {To, From, Contact, Via, ContentType}) && (h.fields.Sequence? <==> h.id == CSeq)
      && (h.fields.Number? <==> h.id in {ContentLength, MaxForwards})
      && (h.fields.Text? <==> h.id in {Accept, CallId, UserAgent, Allow, Supported, ContentDisposition}))
  {
    hide Tok, Skip, Lookup, Ltrim, ParamsOf, Atoi, MethodOf, Cut;
  }

  lemma {:induction false} ShortFound(id: HeaderId, i: nat)
    requires ShortName(id) != "" && i <= HeaderText.Place(id)
    ensures LookupFrom(ShortName(id), i) == Some(id)
    decreases HeaderText.Place(id) - i
  {
    hide Name, ShortName;
    if i < HeaderText.Place(id) {
      if Named(TABLE[i], ShortName(id)) { ShortsDiffer(id, TABLE[i]); TablePlace(i); }
      ShortFound(id, i + 1);
    }
  }

  lemma ShortsDiffer(id: HeaderId, other: HeaderId)
    requires ShortName(id) != "" && Named(other, ShortName(id))
    ensures other == id
  {
  }

  // ---------------------------------------------------------------------- header lines

  /** A header line: the name, white space and the value. */
  lemma LineRead(name: string, w: string, value: string)
    requires Free(name, ":") && AllSpace(w) && (value != "" ==> !IsSpace(value[0]))
    ensures (ParseHeader(name + ":" + (w + value)) ==
      if Lookup(name) == None || ParseFields(Lookup(name).value, value) == None then None
      else Some(Header(Lookup(name).value, ParseFields(Lookup(name).value, value).value)))
  {
    hide Tok, Skip, Lookup, Ltrim, ParseFields;
    TokAt(name, ":", w + value);
    LtrimMeans(w, value);
  }

  /** An address or a content type, with any parameters or none. */
  lemma AddressRead(id: HeaderId, a: string, ws: seq<Written>, rest: string)
    requires KindOf(id) in {AddressKind, TypeKind} && Free(a, ";") && AllClean(ws) && Over(ws, rest)
    ensures ParseFields(id, a) == Some(Address(a, []))
    ensures ParseFields(id, a + ";" + (WrittenList(ws) + rest)) == Some(Address(a, Meanings(ws)))
  {
    hide Tok, Skip, ParamsOf, Clean;
    TokAll(a, ";");
    NothingRead("");
    TokAt(a, ";", WrittenList(ws) + rest);
    ListRead(ws, rest);
  }

  /** A Via: the protocol is passed over, the address is cut to its buffer. */
  lemma ViaRead(version: string, a: string, ws: seq<Written>, rest: string)
    requires Free(version, " ") && Free(a, ";") && AllClean(ws) && Over(ws, rest)
    ensures ParseFields(Via, version) == Some(Address("", []))
    ensures ParseFields(Via, version + " " + a) == Some(Address(Cut(a, 255), []))
    ensures ParseFields(Via, version + " " + (a + ";" + (WrittenList(ws) + rest))) == Some(Address(Cut(a, 255), Meanings(ws)))
  {
    hide Tok, Skip, ParamsOf, Clean, Cut;
    var r := a + ";" + (WrittenList(ws) + rest);
    TokAll(version, " ");
    TokAt(version, " ", a);
    TokAt(version, " ", r);
    TokAll(a, ";");
    NothingRead("");
    NoTok(";");
    TokAt(a, ";", WrittenList(ws) + rest);
    ListRead(ws, rest);
    assert Cut("", 255) == "" by { CutNothing(); }
  }

  /** What a Via is read as, however its text is taken apart. */
  ghost predicate ViaReadAs(input: string, fields: Fields) {
    forall version, a, ws, rest ::
      Free(version, " ") && Free(a, ";") && AllClean(ws) && Over(ws, rest) && input == version + " " + (a + ";" + (WrittenList(ws) + rest)) ==>
        fields == Address(Cut(a, 255), Meanings(ws))
  }

  lemma ViaReadsAs(input: string)
    ensures ParseFields(Via, input).Some? && ViaReadAs(input, ParseFields(Via, input).value)
  {
    hide Free, AllClean, Over, Cut;
    forall version, a, ws, rest |
        Free(version, " ") && Free(a, ";") && AllClean(ws) && Over(ws, rest) && input == version + " " + (a + ";" + (WrittenList(ws) + rest))
      ensures ParseFields(Via, input) == Some(Address(Cut(a, 255), Meanings(ws))) {
      ViaRead(version, a, ws, rest);
    }
  }

  lemma CutNothing()
    ensures Cut("", 255) == ""
  {
  }

  /** A CSeq has the method of that name, and none exactly if there is no such method. */
  lemma CSeqRead(number: string, word: string, rest: string)
    requires Free(number, " ") && Free(word, " ")
    requires rest == "" || rest[0] == ' '
    ensures var fields := ParseFields(CSeq, number + " " + (word + rest));
      && fields.Some? && fields.value.Sequence? && fields.value.seq_ == Atoi(number) % TWO64
      && (fields.value.method_.Some? ==> MethodName(fields.value.method_.value) == word)
      && (fields.value.method_ == None ==> forall m: Method :: MethodName(m) != word)
  {
    hide Tok, Skip, Atoi, MethodName, MethodFrom;
    TokAt(number, " ", word + rest);
    MethodMeans(word, 0);
    if rest == "" {
      assert word + rest == word;
      TokAll(word, " ");
    } else {
      assert word + rest == word + " " + rest[1..];
      TokAt(word, " ", rest[1..]);
    }
  }

  /** A text is cut to its buffer, and a Call-ID is kept whole. */
  lemma TextRead(id: HeaderId, v: string)
    ensures KindOf(id) == CallIdKind ==> ParseFields(id, v) == Some(Text(v))
    ensures KindOf(id) == TextKind ==>
      (var f := ParseFields(id, v); f.Some? && f.value.Text? && f.value.data <= v && |f.value.data| == if |v| <= 299 then |v| else 299)
  {
    hide Cut;
    CutMeans(v, 299);
  }

  /** A number is that of the first word, as far as its 32 bits reach. */
  lemma NumberFieldRead(id: HeaderId, word: string, rest: string)
    requires KindOf(id) == NumberKind && Free(word, " ") && (rest == "" || rest[0] == ' ')
    ensures ParseFields(id, word + rest) == Some(Number(Atoi(word) % TWO32))
  {
    hide Tok, Atoi;
    if rest == "" {
      assert word + rest == word;
      TokAll(word, " ");
    } else {
      assert word + rest == word + " " + rest[1..];
      TokAt(word, " ", rest[1..]);
    }
  }

  lemma {:induction false} MethodMeans(name: string, i: nat)
    requires i <= 14 && forall j: Method :: j < i ==> MethodName(j) != name
    ensures MethodFrom(name, i).Some? ==> MethodName(MethodFrom(name, i).value) == name
    ensures MethodFrom(name, i) == None ==> forall m: Method :: MethodName(m) != name
    decreases 14 - i
  {
    hide MethodName;
    if i < 14 && name != MethodName(i) { MethodMeans(name, i + 1); }
  }

  /** A whole Via line, by either of its names. */
  lemma ViaLineRead(name: string, w: string, version: string, a: string, ws: seq<Written>, rest: string)
    requires Named(Via, name) && AllSpace(w) && version != "" && !IsSpace(version[0]) && Free(version, " ")
    requires Free(a, ";") && AllClean(ws) && Over(ws, rest)
    ensures (ParseHeader(name + ":" + (w + (version + " " + (a + ";" + (WrittenList(ws) + rest)))))
      == Some(Header(Via, Address(Cut(a, 255), Meanings(ws)))))
  {
    hide Clean, Over, ParseFields, ParseHeader, Lookup;
    var value := version + " " + (a + ";" + (WrittenList(ws) + rest));
    ViaRead(version, a, ws, rest);
    assert Lookup(name) == Some(Via) && Free(name, ":") by { ViaNames(); }
    LineRead(name, w, value);
  }

  lemma ViaNames()
    ensures Lookup("Via") == Some(Via) && Lookup("v") == Some(Via) && Free("Via", ":") && Free("v", ":")
  {
    NameFound(Via);
    CompactForms();
  }

  // ------------------------------------------------------------------ lines that are cut

  /** The buffer of a printed line. */
  function LineSize(id: HeaderId): nat {
    if KindOf(id) in {AddressKind, ViaKind, TypeKind} then 299 else 59
  }

  lemma LinePrinted(h: Header)
    requires Shaped(h)
    ensures PrintHeader(h) == Cut(Line(h), LineSize(h.id))
  {
    hide Name, Digits, MethodName, ParamsText, Cut;
    LineJoins(h);
  }

  /** A text header comes back cut to what its printed line has room for, so it survives
      exactly if its line does. */
  lemma TextSurvives(h: Header)
    requires KindOf(h.id) == TextKind && h.fields.Text? && TextOk(h.fields.data) && |h.fields.data| <= 299
    ensures ParseHeader(PrintHeader(h)) == Some(Header(h.id, Text(Cut(h.fields.data, 57 - |Name(h.id)|)))) && |Name(h.id)| <= 19
    ensures ParseHeader(PrintHeader(h)) == Some(h) <==> |Line(h)| <= 59
  {
    hide Name, Free, ParseHeader;
    NameClean(h.id);
    LinePrinted(h);
    var d := Cut(h.fields.data, 57 - |Name(h.id)|);
    var short := Header(h.id, Text(d));
    assert Cut(Line(h), 59) == Line(short);
    assert TextOk(d) by { FreeFront(h.fields.data, d); }
    HeaderReadBack(short);
  }

  lemma FreeFront(s: string, t: string)
    requires Free(s, CRLF) && t <= s
    ensures Free(t, CRLF)
  {
  }
}
