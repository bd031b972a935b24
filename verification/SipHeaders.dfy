/** Header objects and header lists (src/sip_headers.cpp): parsing and printing through
    the dispatch table, cloning, and the linked leaves with their shared count. */
module SipHeaders {
  import opened Tokens
  import opened SipTables
  import opened HeaderText
  import opened Params
  import HeaderReads

  /** The header structures, which share their first fields. `text` is the address, the
      content type or the data, `number` the sequence number or the number. */
  class SipHeader {
    var id: HeaderId
    var text: string
    var number: nat
    var method_: Option<Method>
    var first: Parameter?
    ghost var params: seq<Parameter>

    ghost predicate Valid()
      reads this, params
    {
      Chain(first, params)
    }

    ghost function Value(): Header
      reads this, params
    {
      Header(id, FieldsOf(id, text, number, method_, Contents(params)))
    }

    /** sipster_init_basic_header and sipster_init_params_header. */
    constructor (id: HeaderId)
      ensures this.id == id && text == "" && number == 0 && method_ == None && first == null && params == []
      ensures Valid()
    {
      this.id, text, number, method_, first, params := id, "", 0, None, null, [];
      new;
      NoRecord();
    }
  }

  function FieldsOf(id: HeaderId, text: string, number: nat, m: Option<Method>, params: seq<Param>): Fields {
    match KindOf(id)
    case CSeqKind => Sequence(number, m)
    case NumberKind => Number(number)
    case TextKind => Text(text)
    case CallIdKind => Text(text)
    case NoKind => Text("")
    case _ => Address(text, params)
  }

  // ------------------------------------------------------------ the parse functions

  method AddrParse(id: HeaderId, input: string) returns (h: SipHeader)
    requires KindOf(id) == AddressKind && Fits(id, input)
    ensures fresh(h) && fresh(h.params) && h.Valid() && h.id == id && Some(h.Value().fields) == ParseFields(id, input)
  {
    hide Tok, Skip, After, ParamsOf, Chain, Contents;
    var pos := At(0);
    StartLeft(input);
    h := new SipHeader(id);
    var addressString;
    LeftAfter(input, ";", pos);
    addressString, pos := NextToken(input, ";", pos);
    var first;
    ghost var ps;
    first, pos, ps := ParseParams(input, pos);
    h.text, h.first, h.params := addressString, first, ps;
  }

  method ViaParse(id: HeaderId, input: string) returns (h: SipHeader)
    requires KindOf(id) == ViaKind
    ensures fresh(h) && fresh(h.params) && h.Valid() && h.id == id && Some(h.Value().fields) == ParseFields(id, input)
    ensures HeaderReads.ViaReadAs(input, h.Value().fields)
  {
    HeaderReads.ViaReadsAs(input);
    ViaFields(input);
    hide HeaderReads.ViaReadAs, Tok, Skip, After, ParamsOf, Chain, Contents, ParseFields, Cut, SipHeader.Value;
    var pos := At(0);
    StartLeft(input);
    h := new SipHeader(id);
    var version, addressString;
    LeftAfter(input, " ", pos);
    version, pos := NextToken(input, " ", pos);
    LeftAfter(input, ";", pos);
    addressString, pos := NextToken(input, ";", pos);
    var first;
    ghost var ps;
    first, pos, ps := ParseParams(input, pos);
    h.text, h.first, h.params := Cut(addressString, 255), first, ps;
    ViaValue(h);
  }

  lemma ViaFields(input: string)
    ensures ParseFields(Via, input) == Some(Address(Cut(Tok(Skip(input, " "), ";"), 255), ParamsOf(Skip(Skip(input, " "), ";"))))
  {
    hide Tok, Skip, ParamsOf, Cut;
  }

  lemma ViaValue(h: SipHeader)
    requires h.id == Via
    ensures h.Value() == Header(Via, Address(h.text, Contents(h.params)))
  {
  }

  method CSeqParse(id: HeaderId, input: string) returns (h: SipHeader)
    requires KindOf(id) == CSeqKind
    ensures fresh(h) && fresh(h.params) && h.Valid() && h.id == id && Some(h.Value().fields) == ParseFields(id, input)
  {
    hide Tok, Skip, After, Chain, Contents, MethodOf;
    var pos := At(0);
    StartLeft(input);
    h := new SipHeader(id);
    var seqString, reqMethod;
    LeftAfter(input, " ", pos);
    seqString, pos := NextToken(input, " ", pos);
    reqMethod, pos := NextToken(input, " ", pos);
    var m := FindMethod(reqMethod);
    h.number, h.method_ := Atoi(seqString) % TWO64, m;
  }

  method CallIdParse(id: HeaderId, input: string) returns (h: SipHeader)
    requires KindOf(id) == CallIdKind && Fits(id, input)
    ensures fresh(h) && fresh(h.params) && h.Valid() && h.id == id && Some(h.Value().fields) == ParseFields(id, input)
  {
    hide Chain, Contents;
    StartLeft(input);
    h := new SipHeader(id);
    var data, pos := GetRest(input, At(0));
    h.text := data;
  }

  method TypeParse(id: HeaderId, input: string) returns (h: SipHeader)
    requires KindOf(id) == TypeKind && Fits(id, input)
    ensures fresh(h) && fresh(h.params) && h.Valid() && h.id == id && Some(h.Value().fields) == ParseFields(id, input)
  {
    hide Tok, Skip, After, ParamsOf, Chain, Contents;
    var pos := At(0);
    StartLeft(input);
    h := new SipHeader(id);
    var ct;
    LeftAfter(input, ";", pos);
    ct, pos := NextToken(input, ";", pos);
    h.text := ct;
    var first;
    ghost var ps;
    first, pos, ps := ParseParams(input, pos);
    h.first, h.params := first, ps;
  }

  method StringParse(id: HeaderId, input: string) returns (h: SipHeader)
    requires KindOf(id) == TextKind
    ensures fresh(h) && fresh(h.params) && h.Valid() && h.id == id && Some(h.Value().fields) == ParseFields(id, input)
  {
    hide Chain, Contents;
    StartLeft(input);
    h := new SipHeader(id);
    var data, pos := GetRest(input, At(0));
    h.text := Cut(data, 299);
  }

  method UintParse(id: HeaderId, input: string) returns (h: SipHeader)
    requires KindOf(id) == NumberKind
    ensures fresh(h) && fresh(h.params) && h.Valid() && h.id == id && Some(h.Value().fields) == ParseFields(id, input)
  {
    hide Tok, Chain, Contents;
    StartLeft(input);
    h := new SipHeader(id);
    var number, pos := NextToken(input, " ", At(0));
    h.number := Atoi(number) % TWO32;
  }

  predicate LineFits(line: string) {
    var id := Lookup(Tok(line, ":"));
    id.Some? ==> Fits(id.value, Ltrim(Skip(line, ":")))
  }

  /** sipster_sip_request_parse_header: null where no header is known or where the table
      has no parser for it. */
  method HeaderParse(line: string) returns (h: SipHeader?)
    requires LineFits(line)
    ensures h == null <==> ParseHeader(line) == None
    ensures h != null ==> fresh(h) && fresh(h.params) && h.Valid() && Some(h.Value()) == ParseHeader(line)
  {
    hide Tok, Skip, After, Lookup, Ltrim, ParseFields, Fits, Chain, Contents;
    var pos := At(0);
    StartLeft(line);
    LeftAfter(line, ":", pos);
    var headerString, rest;
    headerString, pos := NextToken(line, ":", pos);
    rest, pos := GetRest(line, pos);
    var cleanRest := Ltrim(rest);
    var found := FindHeader(headerString);
    if found == None {
      return null;
    }
    var id := found.value;
    match KindOf(id) {
      case AddressKind => h := AddrParse(id, cleanRest);
      case ViaKind => h := ViaParse(id, cleanRest);
      case CSeqKind => h := CSeqParse(id, cleanRest);
      case CallIdKind => h := CallIdParse(id, cleanRest);
      case TypeKind => h := TypeParse(id, cleanRest);
      case TextKind => h := StringParse(id, cleanRest);
      case NumberKind => h := UintParse(id, cleanRest);
      case NoKind => NotParsed(id, cleanRest); h := null;
    }
  }

  lemma NotParsed(id: HeaderId, input: string)
    requires KindOf(id) == NoKind
    ensures ParseFields(id, input) == None
  {
  }

  // ------------------------------------------------------------ the print functions

  /** `snprintf` of the header's line into the buffer of its printer. */
  method HeaderPrint(h: SipHeader) returns (line: string)
    requires h.Valid() && Shaped(h.Value())
    ensures line == PrintHeader(h.Value())
  {
    hide Name, Chain, Contents, ParamsText, MethodName, Digits;
    var start := Name(h.id) + ": ";
    match KindOf(h.id) {
      case CSeqKind =>
        line := Cut(start + Digits(h.number) + " " + (if h.method_.Some? then MethodName(h.method_.value) else "(null)"), 59);
      case NumberKind =>
        line := Cut(start + Digits(h.number), 59);
      case TextKind =>
        line := Cut(start + h.text, 59);
      case CallIdKind =>
        line := Cut(start + h.text, 59);
      case ViaKind =>
        var params := PrintParams(h.first, h.params);
        line := Cut(start + PROTOCOL_AND_TRANSPORT + " " + h.text + params, 299);
      case AddressKind =>
        var params := PrintParams(h.first, h.params);
        line := Cut(start + h.text + params, 299);
      case TypeKind =>
        var params := PrintParams(h.first, h.params);
        line := Cut(start + h.text + params, 299);
      case NoKind =>
        assert false;
    }
  }

  // ------------------------------------------------------------ the clone functions

  /** sipster_sip_header_clone: a copy that shares no parameter with the original. */
  method HeaderClone(h: SipHeader) returns (copy: SipHeader)
    requires h.Valid()
    ensures fresh(copy) && fresh(copy.params) && copy.Valid() && copy.Value() == h.Value()
  {
    hide Chain, Contents;
    copy := new SipHeader(h.id);
    if KindOf(h.id) != NoKind {
      copy.text, copy.number, copy.method_ := h.text, h.number, h.method_;
      if KindOf(h.id) in {AddressKind, ViaKind, TypeKind} && h.first != null {
        var newFirst;
        ghost var qs;
        newFirst, qs := ParametersClone(h.first, h.params);
        copy.first, copy.params := newFirst, qs;
      } else if h.first == null {
        EmptyChain(h.first, h.params);
        NoRecord();
      }
    }
  }

  lemma EmptyChain(first: Parameter?, ps: seq<Parameter>)
    requires Chain(first, ps) && first == null
    ensures ps == []
  {
  }

  /** sipster_sip_header_append_parameter, of a record that leads to `tail`. */
  method HeaderAppendShared(h: SipHeader, param: Parameter, ghost tail: seq<Parameter>)
    requires h.Valid() && param !in h.params && Chain(param.next, tail) && param !in tail && forall p <- tail :: p !in h.params
    modifies h`first, h`params, h.params, param`next
    ensures h.Valid() && Contents(h.params) == PutBefore(old(Contents(h.params)), old(param.Pair()), old(Contents(tail)))
    ensures (var i := Params.Place(old(Contents(h.params)), param.name);
      h.params == if i < |old(h.params)| then old(h.params)[i := param] else old(h.params) + [param] + tail)
  {
    hide Chain, Contents, PutBefore, Params.Place;
    var newFirst;
    ghost var qs;
    newFirst, qs := Append(h.first, param, h.params, tail);
    h.first, h.params := newFirst, qs;
  }

  /** The same of a record on its own. */
  method HeaderAppendParameter(h: SipHeader, param: Parameter)
    requires h.Valid() && param !in h.params && param.next == null
    modifies h`first, h`params, h.params, param`next
    ensures h.Valid() && Contents(h.params) == Put(old(Contents(h.params)), old(param.Pair()))
    ensures forall p <- h.params :: p in old(h.params) || p == param
  {
    hide Segment, Contents, PutBefore, Put;
    NoRecord();
    PutAlone(Contents(h.params), param.Pair());
    HeaderAppendShared(h, param, []);
  }
}
