/** Header lines as text: the dispatch table of src/sip_headers_private.h, the header
    parsers and printers of src/sip_headers.cpp as functions on strings, and the proof
    that a printed header is read back. */
module HeaderText {
  import opened Tokens
  import opened SipTables

  // ------------------------------------------------------------- the header table

  datatype HeaderId =
    | To | From | Via | CSeq | Accept | ContentLength | ContentType | Contact | CallId | CallInfo
    | UserAgent | SessionId | MaxForwards | Allow | Supported | ContentDisposition

  /** Which parser and printer a header has. */
  datatype Kind = AddressKind | ViaKind | CSeqKind | TextKind | CallIdKind | NumberKind | TypeKind | NoKind

  const TABLE: seq<HeaderId> := [
    To, From, Via, CSeq, Accept, ContentLength, ContentType, Contact, CallId, CallInfo,
    UserAgent, SessionId, MaxForwards, Allow, Supported, ContentDisposition
  ]

  function Name(id: HeaderId): string {
    match id
    case To => "To"
    case From => "From"
    case Via => "Via"
    case CSeq => "CSeq"
    case Accept => "Accept"
    case ContentLength => "Content-Length"
    case ContentType => "Content-Type"
    case Contact => "Contact"
    case CallId => "Call-ID"
    case CallInfo => "Call-Info"
    case UserAgent => "User-Agent"
    case SessionId => "Session-ID"
    case MaxForwards => "Max-Forwards"
    case Allow => "Allow"
    case Supported => "Supported"
    case ContentDisposition => "Content-Disposition"
  }

  function ShortName(id: HeaderId): string {
    match id
    case To => "t"
    case From => "f"
    case Via => "v"
    case ContentLength => "l"
    case ContentType => "c"
    case Contact => "m"
    case CallId => "i"
    case _ => ""
  }

  function KindOf(id: HeaderId): Kind {
    match id
    case To => AddressKind
    case From => AddressKind
    case Contact => AddressKind
    case Via => ViaKind
    case CSeq => CSeqKind
    case ContentLength => NumberKind
    case MaxForwards => NumberKind
    case ContentType => TypeKind
    case CallId => CallIdKind
    case CallInfo => NoKind
    case SessionId => NoKind
    case _ => TextKind
  }

  function Lookup(name: string): Option<HeaderId> {
    LookupFrom(name, 0)
  }

  function LookupFrom(name: string, i: nat): Option<HeaderId>
    requires i <= 16
    decreases 16 - i
  {
    if i == 16 then None
    else if name == Name(TABLE[i]) || name == ShortName(TABLE[i]) then Some(TABLE[i])
    else LookupFrom(name, i + 1)
  }

  /** The two names that an entry answers to. */
  predicate Named(id: HeaderId, name: string) {
    name == Name(id) || name == ShortName(id)
  }

  method FindHeader(name: string) returns (id: Option<HeaderId>)
    ensures id == Lookup(name)
    ensures id.Some? ==> exists i :: 0 <= i < 16 && TABLE[i] == id.value && Named(TABLE[i], name) && forall j :: 0 <= j < i ==> !Named(TABLE[j], name)
    ensures id == None ==> forall j :: 0 <= j < 16 ==> !Named(TABLE[j], name)
  {
    hide Name, ShortName;
    var i := 0;
    while i < 16
      invariant i <= 16 && Lookup(name) == LookupFrom(name, i)
      invariant forall j :: 0 <= j < i ==> !Named(TABLE[j], name)
    {
      if name == Name(TABLE[i]) || name == ShortName(TABLE[i]) {
        assert Named(TABLE[i], name);
        return Some(TABLE[i]);
      }
      i := i + 1;
    }
    id := None;
  }

  function Place(id: HeaderId): (i: nat)
    ensures i < 16 && TABLE[i] == id
  {
    match id
    case To => 0
    case From => 1
    case Via => 2
    case CSeq => 3
    case Accept => 4
    case ContentLength => 5
    case ContentType => 6
    case Contact => 7
    case CallId => 8
    case CallInfo => 9
    case UserAgent => 10
    case SessionId => 11
    case MaxForwards => 12
    case Allow => 13
    case Supported => 14
    case ContentDisposition => 15
  }

  /** No name is another's name or short name. */
  lemma NamesDiffer(a: HeaderId, b: HeaderId)
    requires Name(a) == Name(b) || Name(a) == ShortName(b)
    ensures a == b
  {
  }

  lemma NameFound(id: HeaderId)
    ensures Lookup(Name(id)) == Some(id)
  {
    hide Name, ShortName;
    NameFoundFrom(id, 0);
  }

  lemma {:induction false} NameFoundFrom(id: HeaderId, i: nat)
    requires i <= Place(id)
    ensures LookupFrom(Name(id), i) == Some(id)
    decreases Place(id) - i
  {
    hide Name, ShortName;
    if i < Place(id) {
      if Name(id) == Name(TABLE[i]) || Name(id) == ShortName(TABLE[i]) { NamesDiffer(id, TABLE[i]); TablePlace(i); }
      NameFoundFrom(id, i + 1);
    }
  }

  lemma TablePlace(i: nat)
    requires i < 16
    ensures Place(TABLE[i]) == i
  {
  }

  predicate Plain(s: string) {
    forall i :: 0 <= i < |s| ==> s[i] == '-' || s[i] >= 'A'
  }

  lemma FirstNamesPlain(id: HeaderId)
    requires Place(id) < 8
    ensures Plain(Name(id)) && 0 < |Name(id)| <= 19
  {
    match id {
      case To => assert Plain(Name(To));
      case From => assert Plain(Name(From));
      case Via => assert Plain(Name(Via));
      case CSeq => assert Plain(Name(CSeq));
      case Accept => assert Plain(Name(Accept));
      case ContentLength => assert Plain(Name(ContentLength));
      case ContentType => assert Plain(Name(ContentType));
      case Contact => assert Plain(Name(Contact));
    }
  }

  lemma LastNamesPlain(id: HeaderId)
    requires Place(id) >= 8
    ensures Plain(Name(id)) && 0 < |Name(id)| <= 19
  {
    match id {
      case CallId => assert Plain(Name(CallId));
      case CallInfo => assert Plain(Name(CallInfo));
      case UserAgent => assert Plain(Name(UserAgent));
      case SessionId => assert Plain(Name(SessionId));
      case MaxForwards => assert Plain(Name(MaxForwards));
      case Allow => assert Plain(Name(Allow));
      case Supported => assert Plain(Name(Supported));
      case ContentDisposition => assert Plain(Name(ContentDisposition));
    }
  }

  lemma NamePlain(id: HeaderId)
    ensures Plain(Name(id)) && 0 < |Name(id)| <= 19
  {
    hide Plain, Name, Place;
    if Place(id) < 8 { FirstNamesPlain(id); } else { LastNamesPlain(id); }
  }

  lemma NameClean(id: HeaderId)
    ensures Free(Name(id), ":") && Free(Name(id), CRLF) && 0 < |Name(id)| <= 19
  {
    hide Name;
    NamePlain(id);
  }

  /** A line that begins with its colon is taken for a CSeq, the first header without a short name. */
  lemma NamelessIsCSeq()
    ensures Lookup("") == Some(CSeq)
  {
    assert LookupFrom("", 3) == Some(CSeq);
    assert LookupFrom("", 2) == Some(CSeq);
    assert LookupFrom("", 1) == Some(CSeq);
  }

  // --------------------------------------------------------------------- numbers

  predicate IsDigit(c: char) {
    '0' <= c <= '9'
  }

  /** `%u`, `%lu` and `%d` of a number that is not negative. */
  function Digits(n: nat): (s: string)
    ensures s != "" && forall i :: 0 <= i < |s| ==> IsDigit(s[i])
  {
    if n < 10 then [('0' as int + n) as char] else Digits(n / 10) + [('0' as int + n % 10) as char]
  }

  function Value(s: string, acc: nat): nat {
    if s == "" || !IsDigit(s[0]) then acc else Value(s[1..], 10 * acc + (s[0] as int - '0' as int))
  }

  predicate IsSpace(c: char) {
    c == ' ' || 9 <= c as int <= 13
  }

  function Ltrim(s: string): (t: string)
    ensures t != "" ==> !IsSpace(t[0])
    ensures (s != "" ==> !IsSpace(s[0])) ==> t == s
  {
    if s != "" && IsSpace(s[0]) then Ltrim(s[1..]) else s
  }

  /** `atoi` and `atol`, before the result is cut to its width. */
  function Atoi(s: string): int {
    var t := Ltrim(s);
    if t != "" && t[0] == '-' then var v: int := Value(t[1..], 0); -v else Value(if t != "" && t[0] == '+' then t[1..] else t, 0)
  }

  lemma {:induction false} ValueDigits(n: nat, r: string)
    ensures Value(Digits(n) + r, 0) == Value(r, n)
  {
    var d := [('0' as int + n % 10) as char];
    assert (d + r)[1..] == r;
    if n < 10 {
      assert Digits(n) == d;
    } else {
      ValueDigits(n / 10, d + r);
      assert Digits(n) + r == Digits(n / 10) + (d + r);
    }
  }

  function Power10(k: nat): nat {
    if k == 0 then 1 else 10 * Power10(k - 1)
  }

  lemma {:induction false} DigitsShort(n: nat, k: nat)
    requires k > 0 && n < Power10(k)
    ensures |Digits(n)| <= k
  {
    if n >= 10 { DigitsShort(n / 10, k - 1); }
  }

  lemma Powers()
    ensures TWO32 / 2 < Power10(10) && TWO64 / 2 < Power10(19)
  {
    assert Power10(5) == 100000;
    assert Power10(10) == 10000000000;
    assert Power10(15) == 1000000000000000;
  }

  lemma AtoiDigits(n: nat)
    ensures Atoi(Digits(n)) == n
  {
    ValueDigits(n, "");
    assert Digits(n) + "" == Digits(n);
  }

  // ------------------------------------------------------------------ parameters

  /** A parameter, `name=value`. */
  datatype Param = Param(name: string, value: string)

  /** `strncpy` and `snprintf` into a buffer with room for `n` characters. */
  function Cut(s: string, n: nat): (t: string)
    ensures |t| <= n && (|s| <= n ==> t == s)
  {
    if |s| <= n then s else s[..n]
  }

  function ParamOf(t: string): Param {
    Param(Cut(Tok(t, "="), 19), Cut(Tok(Skip(t, "="), "="), 29))
  }

  function ParamsOf(r: string): seq<Param>
    decreases |r|
  {
    var t := Tok(r, ";");
    if t == "" then [] else [ParamOf(t)] + ParamsOf(Skip(r, ";"))
  }

  function ParamText(p: Param): string {
    p.name + "=" + p.value
  }

  /** `;name=value` for each. */
  function ParamsText(ps: seq<Param>): string {
    if ps == [] then "" else ";" + ParamText(ps[0]) + ParamsText(ps[1..])
  }

  predicate ParamOk(p: Param) {
    |p.name| <= 19 && |p.value| <= 29 && Free(p.name, ";=\r\n") && Free(p.value, ";=\r\n")
  }

  predicate ParamsOk(ps: seq<Param>) {
    forall i :: 0 <= i < |ps| ==> ParamOk(ps[i])
  }

  lemma FreeOf(s: string, delims: string, fewer: string)
    requires Free(s, delims) && forall c :: c in fewer ==> c in delims
    ensures Free(s, fewer)
  {
  }

  lemma FreeJoined(a: string, b: string, delims: string)
    requires Free(a, delims) && Free(b, delims)
    ensures Free(a + b, delims)
  {
  }

  lemma ParamReadBack(p: Param)
    requires ParamOk(p)
    ensures ParamOf(ParamText(p)) == p && Free(ParamText(p), ";") && Free(ParamText(p), CRLF)
  {
    TokAt(p.name, "=", p.value);
    TokAll(p.value, "=");
  }

  /** Printed parameters, read after their first semicolon. */
  lemma {:induction false} ParamsReadBack(ps: seq<Param>)
    requires ParamsOk(ps)
    ensures ps != [] ==> ParamsText(ps) != "" && ParamsText(ps)[0] == ';'
    ensures ParamsOf(if ps == [] then "" else ParamsText(ps)[1..]) == ps
    ensures Free(ParamsText(ps), CRLF)
  {
    hide ParamOk, ParamOf, ParamText, Tok, Skip, Free, ParamsOf;
    if ps == [] {
      NoTok(";");
      ParamsHead("");
      NoneFree();
    } else {
      var t, more := ParamText(ps[0]), ParamsText(ps[1..]);
      ParamsReadBack(ps[1..]);
      ParamReadBack(ps[0]);
      ParamTextFilled(ps[0]);
      NoneFree();
      FreeJoined(";", t, CRLF);
      FreeJoined(";" + t, more, CRLF);
      assert ParamsText(ps) == ";" + t + more && ParamsText(ps)[1..] == t + more;
      NextParam(t, more);
      ParamsHead(t + more);
      assert [ps[0]] + ps[1..] == ps;
    }
  }

  /** The head of a text of parameters: what comes before the next semicolon, or all. */
  lemma NextParam(t: string, more: string)
    requires Free(t, ";") && (more == "" || more[0] == ';')
    ensures Tok(t + more, ";") == t && Skip(t + more, ";") == if more == "" then "" else more[1..]
  {
    hide Tok, Skip;
    if more == "" {
      assert t + more == t;
      TokAll(t, ";");
    } else {
      assert t + more == t + ";" + more[1..];
      TokAt(t, ";", more[1..]);
    }
  }

  lemma ParamsHead(r: string)
    ensures ParamsOf(r) == if Tok(r, ";") == "" then [] else [ParamOf(Tok(r, ";"))] + ParamsOf(Skip(r, ";"))
  {
    hide Tok, Skip, ParamOf;
  }

  lemma NoneFree()
    ensures Free("", CRLF) && Free(";", CRLF)
  {
  }

  lemma ParamTextFilled(p: Param)
    ensures ParamText(p) != ""
  {
  }

  lemma NoTok(delim: string)
    ensures Tok("", delim) == "" && Skip("", delim) == ""
  {
  }

  // --------------------------------------------------------------------- headers

  /** What a header holds besides its name. Via and Content-Type have a text and
      parameters like the headers with an address. */
  datatype Fields =
    | Address(address: string, params: seq<Param>)
    | Sequence(seq_: nat, method_: Option<Method>)
    | Number(number: nat)
    | Text(data: string)

  datatype Header = Header(id: HeaderId, fields: Fields)

  const PROTOCOL: string := "SIP/2.0"
  const PROTOCOL_AND_TRANSPORT: string := "SIP/2.0/UDP"

  const TWO32: nat := 0x1_0000_0000
  const TWO64: nat := 0x1_0000_0000_0000_0000

  predicate Shaped(h: Header) {
    match KindOf(h.id)
    case CSeqKind => h.fields.Sequence?
    case NumberKind => h.fields.Number?
    case TextKind => h.fields.Text?
    case CallIdKind => h.fields.Text?
    case NoKind => false
    case _ => h.fields.Address?
  }

  /** The table's parse function, on what follows the colon without leading white space. */
  function ParseFields(id: HeaderId, input: string): Option<Fields> {
    match KindOf(id)
    case AddressKind => Some(Address(Tok(input, ";"), ParamsOf(Skip(input, ";"))))
    case ViaKind => var r := Skip(input, " "); Some(Address(Cut(Tok(r, ";"), 255), ParamsOf(Skip(r, ";"))))
    case CSeqKind => Some(Sequence(Atoi(Tok(input, " ")) % TWO64, MethodOf(Tok(Skip(input, " "), " "))))
    case TextKind => Some(Text(Cut(input, 299)))
    case CallIdKind => Some(Text(input))
    case NumberKind => Some(Number(Atoi(Tok(input, " ")) % TWO32))
    case TypeKind => Some(Address(Tok(input, ";"), ParamsOf(Skip(input, ";"))))
    case NoKind => None
  }

  function ParseHeader(line: string): Option<Header> {
    match Lookup(Tok(line, ":"))
    case None => None
    case Some(id) =>
      match ParseFields(id, Ltrim(Skip(line, ":")))
      case None => None
      case Some(fields) => Some(Header(id, fields))
  }

  function PrintHeader(h: Header): string
    requires Shaped(h)
  {
    var start := Name(h.id) + ": ";
    match KindOf(h.id)
    case ViaKind => Cut(start + PROTOCOL_AND_TRANSPORT + " " + h.fields.address + ParamsText(h.fields.params), 299)
    case CSeqKind =>
      Cut(start + Digits(h.fields.seq_) + " " + (if h.fields.method_.Some? then MethodName(h.fields.method_.value) else "(null)"), 59)
    case NumberKind => Cut(start + Digits(h.fields.number), 59)
    case TextKind => Cut(start + h.fields.data, 59)
    case CallIdKind => Cut(start + h.fields.data, 59)
    case _ => Cut(start + h.fields.address + ParamsText(h.fields.params), 299)
  }

  /** The field buffers hold what the parser copies into them. */
  predicate Fits(id: HeaderId, input: string) {
    match KindOf(id)
    case AddressKind => |Tok(input, ";")| < 100
    case TypeKind => |Tok(input, ";")| < 150
    case CallIdKind => |input| < 300
    case _ => true
  }

  /** The fields are free of their own delimiters and within their buffers, and the
      printed line is within its own. */
  predicate Printable(h: Header) {
    && Shaped(h)
    && match KindOf(h.id)
       case ViaKind =>
         && |h.fields.address| <= 255 && Free(h.fields.address, ";\r\n") && ParamsOk(h.fields.params)
         && |Name(h.id)| + 14 + |h.fields.address| + |ParamsText(h.fields.params)| <= 299
       case CSeqKind => h.fields.seq_ < TWO64 / 2 && h.fields.method_.Some?
       case NumberKind => h.fields.number < TWO32 / 2
       case TextKind => TextOk(h.fields.data) && |Name(h.id)| + 2 + |h.fields.data| <= 59
       case CallIdKind => TextOk(h.fields.data) && |Name(h.id)| + 2 + |h.fields.data| <= 59
       case _ =>
         && |h.fields.address| < (if KindOf(h.id) == TypeKind then 150 else 100)
         && TextOk(h.fields.address) && Free(h.fields.address, ";") && ParamsOk(h.fields.params)
         && |Name(h.id)| + 2 + |h.fields.address| + |ParamsText(h.fields.params)| <= 299
  }

  /** One line that does not start with white space. */
  predicate TextOk(s: string) {
    Free(s, CRLF) && (s != "" ==> !IsSpace(s[0]))
  }

  // ------------------------------------------------------------------ reading back

  /** The line of a printable header is not cut. */
  function Line(h: Header): string
    requires Shaped(h)
  {
    Name(h.id) + ": " + FieldsText(h)
  }

  function FieldsText(h: Header): string
    requires Shaped(h)
  {
    match KindOf(h.id)
    case ViaKind => PROTOCOL_AND_TRANSPORT + " " + (h.fields.address + ParamsText(h.fields.params))
    case CSeqKind =>
      Digits(h.fields.seq_) + " " + (if h.fields.method_.Some? then MethodName(h.fields.method_.value) else "(null)")
    case NumberKind => Digits(h.fields.number)
    case TextKind => h.fields.data
    case CallIdKind => h.fields.data
    case _ => h.fields.address + ParamsText(h.fields.params)
  }

  lemma PrintedWhole(h: Header)
    requires Printable(h)
    ensures PrintHeader(h) == Line(h)
  {
    hide Name, Digits, MethodName, ParamsText, TextOk, ParamsOk;
    NameClean(h.id);
    if KindOf(h.id) == CSeqKind {
      CSeqShort(h.id, h.fields.seq_, h.fields.method_.value);
    } else if KindOf(h.id) == NumberKind {
      NumberShort(h.id, h.fields.number);
    } else {
      LineJoins(h);
    }
  }

  lemma LineJoins(h: Header)
    requires Shaped(h)
    ensures var start := Name(h.id) + ": "; KindOf(h.id) == ViaKind ==>
      start + PROTOCOL_AND_TRANSPORT + " " + h.fields.address + ParamsText(h.fields.params) == Line(h)
    ensures var start := Name(h.id) + ": "; KindOf(h.id) in {AddressKind, TypeKind} ==>
      start + h.fields.address + ParamsText(h.fields.params) == Line(h)
    ensures KindOf(h.id) == CSeqKind ==>
      (Name(h.id) + ": " + Digits(h.fields.seq_) + " " + (if h.fields.method_.Some? then MethodName(h.fields.method_.value) else "(null)") == Line(h))
  {
    hide Name, Digits, MethodName, ParamsText;
  }

  lemma CSeqShort(id: HeaderId, n: nat, m: Method)
    requires KindOf(id) == CSeqKind && n < TWO64 / 2
    ensures PrintHeader(Header(id, Sequence(n, Some(m)))) == Line(Header(id, Sequence(n, Some(m))))
  {
    hide Name, Digits, MethodName;
    Powers();
    DigitsShort(n, 19);
    NameClean(id);
    MethodClean(m);
    LineJoins(Header(id, Sequence(n, Some(m))));
  }

  lemma NumberShort(id: HeaderId, n: nat)
    requires KindOf(id) == NumberKind && n < TWO32 / 2
    ensures PrintHeader(Header(id, Number(n))) == Line(Header(id, Number(n)))
  {
    hide Name, Digits;
    Powers();
    DigitsShort(n, 10);
    NameClean(id);
  }

  lemma MethodClean(m: Method)
    ensures Free(MethodName(m), " \r\n") && 0 < |MethodName(m)| <= 9
  {
    MethodPlain(m);
  }

  lemma MethodPlain(m: Method)
    ensures Plain(MethodName(m)) && 0 < |MethodName(m)| <= 9
  {
  }

  lemma DigitsClean(n: nat)
    ensures Free(Digits(n), " ") && Free(Digits(n), CRLF)
  {
    hide Digits;
  }

  /** Fields that are printed are read back from the same text. */
  lemma FieldsReadBack(h: Header)
    requires Printable(h)
    ensures ParseFields(h.id, FieldsText(h)) == Some(h.fields)
    ensures Free(FieldsText(h), CRLF) && (FieldsText(h) != "" ==> !IsSpace(FieldsText(h)[0]))
  {
    hide Name, Tok, Skip, Digits, Atoi, MethodName, MethodOf, ParamsOf, ParamsText, Free, ParamsOk;
    match KindOf(h.id)
    case AddressKind => AddressReadBack(h.fields.address, h.fields.params);
    case TypeKind => AddressReadBack(h.fields.address, h.fields.params);
    case ViaKind => ViaReadBack(h.fields.address, h.fields.params);
    case CSeqKind => CSeqReadBack(h.fields.seq_, h.fields.method_.value);
    case NumberKind => NumberReadBack(h.fields.number);
    case _ =>
  }

  lemma AddressReadBack(a: string, ps: seq<Param>)
    requires Free(a, ";") && TextOk(a) && ParamsOk(ps)
    ensures (var r := a + ParamsText(ps);
      Tok(r, ";") == a && ParamsOf(Skip(r, ";")) == ps && Free(r, CRLF) && (r != "" ==> !IsSpace(r[0])))
  {
    hide Free, ParamsOk, ParamsOf, ParamsText, Tok, Skip;
    ParamsReadBack(ps);
    var t := ParamsText(ps);
    FreeJoined(a, t, CRLF);
    if ps == [] {
      EmptyParams();
      assert a + t == a;
      TokAll(a, ";");
    } else {
      assert a + t == a + ";" + t[1..];
      TokAt(a, ";", t[1..]);
    }
  }

  lemma EmptyParams()
    ensures ParamsText([]) == "" && ParamsOf("") == []
  {
    NoTok(";");
  }

  lemma ViaReadBack(a: string, ps: seq<Param>)
    requires Free(a, ";\r\n") && ParamsOk(ps)
    ensures var r := PROTOCOL_AND_TRANSPORT + " " + (a + ParamsText(ps));
      && Tok(Skip(r, " "), ";") == a && ParamsOf(Skip(Skip(r, " "), ";")) == ps
      && Free(r, CRLF) && !IsSpace(r[0])
  {
    hide Free, ParamsOk, ParamsOf, ParamsText, Tok, Skip;
    ParamsReadBack(ps);
    var t := ParamsText(ps);
    FreeOf(a, ";\r\n", ";");
    FreeOf(a, ";\r\n", CRLF);
    ProtocolClean();
    FreeJoined(a, t, CRLF);
    FreeJoined(PROTOCOL_AND_TRANSPORT + " ", a + t, CRLF);
    TokAt(PROTOCOL_AND_TRANSPORT, " ", a + t);
    if ps == [] {
      EmptyParams();
      assert a + t == a;
      TokAll(a, ";");
    } else {
      assert a + t == a + ";" + t[1..];
      TokAt(a, ";", t[1..]);
    }
  }

  lemma ProtocolClean()
    ensures Free(PROTOCOL_AND_TRANSPORT, " ") && Free(PROTOCOL_AND_TRANSPORT + " ", CRLF)
  {
  }

  lemma CSeqReadBack(n: nat, m: Method)
    requires n < TWO64 / 2
    ensures var r := Digits(n) + " " + MethodName(m);
      && Atoi(Tok(r, " ")) == n && MethodOf(Tok(Skip(r, " "), " ")) == Some(m)
      && Free(r, CRLF) && !IsSpace(r[0])
  {
    hide Free, Digits, MethodName, Tok, Skip, Atoi;
    DigitsClean(n);
    MethodClean(m);
    FreeOf(MethodName(m), " \r\n", " ");
    FreeOf(MethodName(m), " \r\n", CRLF);
    SpaceClean();
    FreeJoined(Digits(n), " ", CRLF);
    FreeJoined(Digits(n) + " ", MethodName(m), CRLF);
    TokAt(Digits(n), " ", MethodName(m));
    TokAll(MethodName(m), " ");
    AtoiDigits(n);
    MethodFound(m, 0);
  }

  lemma SpaceClean()
    ensures Free(" ", CRLF)
  {
  }

  lemma NumberReadBack(n: nat)
    requires n < TWO32 / 2
    ensures Atoi(Tok(Digits(n), " ")) == n && Free(Digits(n), CRLF) && !IsSpace(Digits(n)[0])
  {
    hide Free, Digits, Tok, Skip, Atoi;
    DigitsClean(n);
    TokAll(Digits(n), " ");
    AtoiDigits(n);
  }

  /** A printable header is printed as one line and read back from it. */
  lemma HeaderReadBack(h: Header)
    requires Printable(h)
    ensures PrintHeader(h) == Line(h) && Line(h) != "" && Free(Line(h), CRLF)
    ensures ParseHeader(Line(h)) == Some(h)
  {
    hide Name, Tok, Skip, Free, FieldsText, ParseFields, Lookup, PrintHeader;
    PrintedWhole(h);
    FieldsReadBack(h);
    NameClean(h.id);
    NameFound(h.id);
    var t := FieldsText(h);
    ColonClean();
    FreeJoined(Name(h.id), ": ", CRLF);
    FreeJoined(Name(h.id) + ": ", t, CRLF);
    assert Line(h) == Name(h.id) + ":" + (" " + t);
    TokAt(Name(h.id), ":", " " + t);
    assert Ltrim(" " + t) == t by { assert (" " + t)[1..] == t; }
  }

  /** A printed header fits into the buffers that reading it back fills. */
  lemma PrintedFits(h: Header)
    requires Printable(h)
    ensures Lookup(Tok(Line(h), ":")) == Some(h.id) && Fits(h.id, Ltrim(Skip(Line(h), ":")))
  {
    hide Name, Tok, Skip, Free, FieldsText, Lookup;
    FieldsReadBack(h);
    NameClean(h.id);
    NameFound(h.id);
    var t := FieldsText(h);
    assert Line(h) == Name(h.id) + ":" + (" " + t);
    TokAt(Name(h.id), ":", " " + t);
    assert Ltrim(" " + t) == t by { assert (" " + t)[1..] == t; }
    TextFits(h);
  }

  lemma TextFits(h: Header)
    requires Printable(h)
    ensures Fits(h.id, FieldsText(h))
  {
    hide Name, Tok, Skip, Free, ParamsText, ParamsOk, Digits, MethodName, IsSpace;
    match KindOf(h.id)
    case AddressKind => AddressReadBack(h.fields.address, h.fields.params);
    case TypeKind => AddressReadBack(h.fields.address, h.fields.params);
    case _ =>
  }

  lemma ColonClean()
    ensures Free(": ", CRLF)
  {
  }
}
