/** The registry of src/sipster.cpp as an object: the nested map, the legs that it leads
    to, and the processing of requests and responses. */
module SipRegistry {
  import opened Tokens
  import opened SipTables
  import opened HeaderText
  import opened MessageText
  import opened Params
  import opened SipHeaders
  import opened SipLists
  import opened SipMessages
  import SipResponses
  import opened LegRegistry

  const RETURN_CALL_NOT_FOUND: int := -3
  const RETURN_MESSAGE_ERROR: int := -1

  // --------------------------------------------------- what a message says of its leg

  /** The headers with an identity, in order. */
  function Of(hs: seq<Header>, id: HeaderId): seq<Header> {
    if hs == [] then [] else Of(hs[..|hs| - 1], id) + if hs[|hs| - 1].id == id then [hs[|hs| - 1]] else []
  }

  /** The value of the first parameter whose name begins with tag. */
  function TagOf(h: Header): Option<string> {
    if !h.fields.Address? then None
    else
      var i := PlacePrefix(h.fields.params, "tag");
      if i < |h.fields.params| then Some(h.fields.params[i].value) else None
  }

  function DataOf(h: Header): string {
    if h.fields.Text? then h.fields.data else ""
  }

  function NoteOf(hs: seq<Header>): Note {
    var c, t, f := Of(hs, CallId), Of(hs, To), Of(hs, From);
    Note(seq(|c|, i requires 0 <= i < |c| => DataOf(c[i])),
         seq(|t|, i requires 0 <= i < |t| => TagOf(t[i])),
         seq(|f|, i requires 0 <= i < |f| => TagOf(f[i])))
  }

  /** The value of the tag parameter itself. */
  function TagIn(h: Header): Option<string> {
    if h.fields.Address? then Params.Find(h.fields.params, "tag") else None
  }

  /** No name before the tag begins with tag, or else the first such parameter happens to
      have the tag's value. */
  predicate TagLeads(ps: seq<Param>) {
    var k := Params.Place(ps, "tag");
    forall i :: 0 <= i < k && "tag" <= ps[i].name && Clear(ps[..i], "tag") ==> k < |ps| && ps[i].value == ps[k].value
  }

  /** The tag that is read is the tag exactly under that condition. */
  lemma TagExact(h: Header)
    requires h.fields.Address?
    ensures TagOf(h) == TagIn(h) <==> TagLeads(h.fields.params)
    ensures TagIn(h).Some? ==> TagOf(h).Some?
    ensures TagIn(h) == None ==> (TagOf(h) == None <==> forall p <- h.fields.params :: !("tag" <= p.name))
  {
    var ps := h.fields.params;
    var i0, k := PlacePrefix(ps, "tag"), Params.Place(ps, "tag");
    PrefixExact(ps, "tag");
    if i0 < k {
      assert Clear(ps[..i0], "tag");
      assert TagLeads(ps) ==> k < |ps| && ps[i0].value == ps[k].value;
      forall i | 0 <= i < k && "tag" <= ps[i].name && Clear(ps[..i], "tag") ensures i == i0 { FirstOfPrefix(ps, i, k); }
    }
    if i :| 0 <= i < |ps| && "tag" <= ps[i].name { assert ps[i] in ps; }
  }

  lemma FirstOfPrefix(ps: seq<Param>, i: nat, k: nat)
    requires k == Params.Place(ps, "tag") && i < k && "tag" <= ps[i].name && Clear(ps[..i], "tag")
    ensures i == PlacePrefix(ps, "tag")
  {
    var front := ps[..i];
    assert Params.Place(front, "tag") == i;
    forall j | 0 <= j < i ensures !("tag" <= ps[j].name) { assert front[j] == ps[j]; }
  }

  /** A request whose To tag is registered resolves to the leg that is registered for it,
      after any run, exactly if no other parameter is read in the place of the tag. */
  lemma TaggedRequest(r: Registry, es: seq<Event>, hs: seq<Header>, c: Header, to: Header, generated: string)
    requires WellFormed(r) && AllowedRun(r, es)
    requires Of(hs, CallId) == [c] && Of(hs, To) == [to] && to.fields.Address?
    requires TagIn(to).Some? && Registered(r, DataOf(c), TagIn(to).value)
    ensures !Opens(NoteOf(hs))
    ensures OnRequest(LegRegistry.Last(r, es), NoteOf(hs), generated, true) == (LegRegistry.Last(r, es), Found(LegAt(r, DataOf(c), TagIn(to).value)))
      <==> TagLeads(to.fields.params)
  {
    hide Of, TagLeads, TagIn, TagOf, DataOf, Keyed;
    TagExact(to);
    RunKeeps(r, es);
  }

  /** The first parameter whose name begins with tag. */
  predicate ReadFirst(ps: seq<Param>, i: nat) {
    i < |ps| && "tag" <= ps[i].name && forall j :: 0 <= j < i ==> !("tag" <= ps[j].name)
  }

  lemma FirstIsRead(h: Header, i: nat)
    requires h.fields.Address? && ReadFirst(h.fields.params, i)
    ensures TagOf(h) == Some(h.fields.params[i].value)
  {
    var k := PlacePrefix(h.fields.params, "tag");
    assert k == i;
  }

  /** A request whose To tag is not registered adds nothing, and is not found exactly if the
      value of the first parameter whose name begins with tag is not registered either; else
      it resolves to the leg of that value. Its From header does not matter. */
  lemma UnknownTagRequest(r: Registry, hs: seq<Header>, c: Header, to: Header, generated: string) returns (i: nat)
    requires Of(hs, CallId) == [c] && Of(hs, To) == [to] && to.fields.Address?
    requires TagIn(to).Some? && !Registered(r, DataOf(c), TagIn(to).value)
    ensures !Opens(NoteOf(hs)) && ReadFirst(to.fields.params, i)
    ensures (var read := to.fields.params[i].value; var o := OnRequest(r, NoteOf(hs), generated, true);
      && (o == (r, NotFound) <==> !Registered(r, DataOf(c), read))
      && (Registered(r, DataOf(c), read) ==> o == (r, Found(LegAt(r, DataOf(c), read))))
      && (TagLeads(to.fields.params) ==> o == (r, NotFound)))
  {
    hide Of, TagLeads, TagIn, TagOf, DataOf;
    TagExact(to);
    i := PrefixAt(to);
    FirstIsRead(to, i);
  }

  lemma PrefixAt(h: Header) returns (i: nat)
    requires h.fields.Address? && TagIn(h).Some?
    ensures ReadFirst(h.fields.params, i)
  {
    i := PlacePrefix(h.fields.params, "tag");
    var k := Params.Place(h.fields.params, "tag");
    assert "tag" <= h.fields.params[k].name;
  }

  /** A request without a To tag opens a leg exactly if no parameter name begins with tag. */
  lemma UntaggedRequest(hs: seq<Header>, c: Header, to: Header, from: Header)
    requires Of(hs, CallId) == [c] && Of(hs, To) == [to] && Of(hs, From) == [from] && to.fields.Address?
    requires TagIn(to) == None
    ensures Opens(NoteOf(hs)) <==> forall p <- to.fields.params :: !("tag" <= p.name)
  {
    hide Of, TagLeads, TagIn, TagOf, DataOf;
    TagExact(to);
  }

  /** A leg is registered for the tag b, and a request with that tag is not found. */
  lemma TagMisread()
    ensures var r := Created(START, Inbound, "i", "a", "b");
      var to := Header(To, Address("u", [Param("tagx", "z"), Param("tag", "b")]));
      var hs := [Header(CallId, Text("i")), to];
      TagIn(to) == Some("b") && Registered(r, "i", "b") && OnRequest(r, NoteOf(hs), "g", true) == (r, NotFound)
  {
    hide Of, TagOf, TagIn, DataOf;
    var to := Header(To, Address("u", [Param("tagx", "z"), Param("tag", "b")]));
    TagsOf(to, "b");
    TwoHeaders(Header(CallId, Text("i")), to);
    assert DataOf(Header(CallId, Text("i"))) == "i" by { IdOf(); }
  }

  /** A leg is registered for z and none for the tag u, and a request with that tag and no
      From header resolves to the leg for z. */
  lemma TagConfused()
    ensures var r := Created(START, Inbound, "i", "a", "z");
      var to := Header(To, Address("u", [Param("tagx", "z"), Param("tag", "u")]));
      var hs := [Header(CallId, Text("i")), to];
      && TagIn(to) == Some("u") && !Registered(r, "i", "u") && Registered(r, "i", "z")
      && OnRequest(r, NoteOf(hs), "g", true) == (r, Found(LegAt(r, "i", "z")))
  {
    hide Of, TagOf, TagIn, DataOf;
    var to := Header(To, Address("u", [Param("tagx", "z"), Param("tag", "u")]));
    TagsOf(to, "u");
    TwoHeaders(Header(CallId, Text("i")), to);
    assert DataOf(Header(CallId, Text("i"))) == "i" by { IdOf(); }
  }

  lemma IdOf()
    ensures DataOf(Header(CallId, Text("i"))) == "i"
  {
  }

  lemma TagsOf(to: Header, tag: string)
    requires to == Header(To, Address("u", [Param("tagx", "z"), Param("tag", tag)]))
    ensures TagOf(to) == Some("z") && TagIn(to) == Some(tag)
  {
    var ps := to.fields.params;
    assert "tag" <= ps[0].name && ps[0].name != "tag" && ps[1].name == "tag";
    assert PlacePrefix(ps, "tag") == 0 && Params.Place(ps, "tag") == 1;
  }

  lemma TwoHeaders(c: Header, to: Header)
    requires c.id == CallId && to.id == To
    ensures Of([c, to], CallId) == [c] && Of([c, to], To) == [to]
  {
    assert [c, to][..1] == [c] && [c][..0] == [];
    assert Of([c], CallId) == [c] && Of([c], To) == [];
  }

  /** There is one header of a kind, and only one. */
  predicate Once(hs: seq<Header>, id: HeaderId) {
    exists i :: 0 <= i < |hs| && OnlyAt(hs, id, i)
  }

  predicate OnlyAt(hs: seq<Header>, id: HeaderId, i: nat)
    requires i < |hs|
  {
    hs[i].id == id && forall j :: 0 <= j < |hs| && hs[j].id == id ==> j == i
  }

  lemma {:induction false} NoneOf(hs: seq<Header>, id: HeaderId)
    ensures Of(hs, id) == [] <==> forall i :: 0 <= i < |hs| ==> hs[i].id != id
  {
    if hs != [] {
      NoneOf(hs[..|hs| - 1], id);
      assert forall i :: 0 <= i < |hs| - 1 ==> hs[..|hs| - 1][i] == hs[i];
    }
  }

  lemma {:induction false} OneOf(hs: seq<Header>, id: HeaderId)
    ensures |Of(hs, id)| == 1 <==> Once(hs, id)
    decreases |hs|
  {
    hide Once;
    if hs != [] {
      OneOf(hs[..|hs| - 1], id);
      NoneOf(hs[..|hs| - 1], id);
      OnceStep(hs, id);
    } else {
      assert !Once(hs, id) by { NoneOnce(id); }
    }
  }

  lemma NoneOnce(id: HeaderId)
    ensures !Once([], id)
  {
  }

  lemma OnceStep(hs: seq<Header>, id: HeaderId)
    requires hs != []
    ensures var front, h := hs[..|hs| - 1], hs[|hs| - 1];
      Once(hs, id) <==> if h.id == id then forall i :: 0 <= i < |front| ==> front[i].id != id else Once(front, id)
  {
    var n := |hs| - 1;
    var front := hs[..n];
    assert forall i :: 0 <= i < n ==> front[i] == hs[i];
    if hs[n].id == id {
      if forall i :: 0 <= i < n ==> front[i].id != id { assert OnlyAt(hs, id, n); }
    } else {
      if i :| 0 <= i < n && OnlyAt(front, id, i) { assert OnlyAt(hs, id, i); }
      if i :| 0 <= i < |hs| && OnlyAt(hs, id, i) { assert OnlyAt(front, id, i); }
    }
  }

  lemma OnceTo(hs: seq<Header>)
    requires Once(hs, To)
    ensures SipResponses.OneTo(hs)
  {
  }

  /** A request is malformed, and answered with 400, exactly if it has not one Call-ID and one To
      header, or if no parameter name of its To begins with tag and it has not one From header. */
  lemma RequestMalformed(r: Registry, hs: seq<Header>, generated: string)
    requires Opens(NoteOf(hs)) ==> NoteOf(hs).froms[0].Some?
    ensures (OnRequest(r, NoteOf(hs), generated, true).1 == Malformed <==>
      (Once(hs, CallId) && Once(hs, To) ==> NoteOf(hs).tos == [None] && !Once(hs, From)))
  {
    hide Of, TagOf, DataOf, Once;
    OneOf(hs, CallId);
    OneOf(hs, To);
    OneOf(hs, From);
    RequestVerdict(r, NoteOf(hs), generated, true);
  }

  /** A response is malformed exactly if it has not one Call-ID and one From header. */
  lemma ResponseMalformed(r: Registry, hs: seq<Header>)
    ensures LegFor(r, NoteOf(hs)) == Malformed <==> !Once(hs, CallId) || !Once(hs, From)
  {
    hide Of, TagOf, DataOf, Once;
    OneOf(hs, CallId);
    OneOf(hs, From);
    ResponseVerdict(r, NoteOf(hs));
  }

  /** A request that has found its leg has one To header, so that the response to it is the
      one that was asked for, whatever its status. */
  lemma FoundAnswered(r: Registry, hs: seq<Header>, generated: string, create: bool, rport: nat, tag: Option<string>)
    requires create && Opens(NoteOf(hs)) ==> NoteOf(hs).froms[0].Some?
    requires OnRequest(r, NoteOf(hs), generated, create).1.Found?
    ensures SipResponses.SharedAnswers(hs, rport, tag, SipResponses.Tail(hs)) == SipResponses.Answers(hs, rport, tag)
  {
    hide Of, Once, SipResponses.Tail, SipResponses.Answers, SipResponses.SharedAnswers;
    OneOf(hs, To);
    OnceTo(hs);
    SipResponses.SharedExact(hs, rport, tag);
  }

  /** The search counts the headers of a kind, and finds the first. */
  lemma {:induction false} OfMeans(hs: seq<Header>, ids: seq<HeaderId>, id: HeaderId)
    requires |ids| == |hs| && forall i :: 0 <= i < |hs| ==> hs[i].id == ids[i]
    ensures |Of(hs, id)| == CountOf(ids, id)
    ensures FirstOf(ids, id) < |ids| ==> Of(hs, id) != [] && Of(hs, id)[0] == hs[FirstOf(ids, id)]
  {
    if hs != [] {
      var front, fore := hs[..|hs| - 1], ids[..|ids| - 1];
      OfMeans(front, fore, id);
      CountFirst(fore, id);
      FirstFront(ids, id);
    }
  }

  lemma FirstFront(ids: seq<HeaderId>, id: HeaderId)
    requires ids != []
    ensures var fore := ids[..|ids| - 1];
      FirstOf(ids, id) == if FirstOf(fore, id) < |fore| then FirstOf(fore, id)
        else if ids[|ids| - 1] == id then |ids| - 1 else |ids|
  {
    var fore := ids[..|ids| - 1];
    assert forall j :: 0 <= j < |fore| ==> fore[j] == ids[j];
    var k := FirstOf(fore, id);
    if k < |fore| { assert ids[k] == id; }
  }

  /** The one header of a kind, or null where there is none or more than one. */
  method TheHeader(list: HeaderList, id: HeaderId, ghost vs: seq<Header>) returns (h: SipHeader?)
    requires list.Holds(vs)
    ensures list.Holds(vs) && (h != null <==> |Of(vs, id)| == 1)
    ensures h != null ==> h.Valid() && h.Value() == Of(vs, id)[0] && h.id == id
  {
    hide HeaderList.Linked, HeaderList.Holding, HeaderList.Ended, CountOf, FirstOf, SipHeader.Value, SipHeader.Valid, Of, Copied, Picked;
    SearchMeans(list, id);
    var leaf, copies := list.GetHeader(id);
    if leaf == null || leaf.metadata.count != 1 {
      return null;
    }
    h := leaf.header;
  }

  lemma SearchMeans(list: HeaderList, id: HeaderId)
    requires list.Holding()
    ensures |Of(list.Values(), id)| == CountOf(list.Ids(), id)
    ensures var i := FirstOf(list.Ids(), id); i < |list.headers| ==>
      (Of(list.Values(), id) != [] && list.headers[i].Valid() && list.headers[i].Value() == Of(list.Values(), id)[0]
       && list.headers[i].id == id)
    ensures CountOf(list.Ids(), id) == 0 <==> FirstOf(list.Ids(), id) == |list.headers|
  {
    hide SipHeader.Valid, SipHeader.Value, Of;
    var ids, vs := list.Ids(), list.Values();
    CountFirst(ids, id);
    forall j | 0 <= j < |ids| ensures vs[j].id == ids[j] { ValueId(list.headers[j]); }
    OfMeans(vs, ids, id);
  }

  /** The tag parameter of a To or From header. */
  method GetTag(h: SipHeader) returns (tag: Option<string>)
    requires h.Valid() && KindOf(h.id) == AddressKind
    ensures tag == TagOf(h.Value())
  {
    hide Chain, Contents, PlacePrefix;
    PairsOf(h.params);
    var p := ParameterGet("tag", h.first, h.params);
    tag := if p == null then None else Some(p.value);
  }

  class CallLeg {
    var direction: Direction
    var callId: string
    var fromTag: string
    var toTag: string
    /** Whether there is a request handler. */
    var handled: bool
    /** The body that was last handed to the SDP parser and understood. */
    var remoteData: Option<string>

    constructor (direction: Direction, callId: string, fromTag: string, toTag: string, handled: bool)
      ensures Value() == Leg(direction, callId, Cut(fromTag, 14), Cut(toTag, 14))
      ensures this.handled == handled && remoteData == None
    {
      this.direction, this.callId, this.fromTag, this.toTag := direction, callId, Cut(fromTag, 14), Cut(toTag, 14);
      this.handled, remoteData := handled, None;
    }

    ghost function Value(): Leg
      reads this
    {
      Leg(direction, callId, fromTag, toTag)
    }
  }

  /** The legs of a Call-ID, by the numbers of their creation. */
  ghost predicate Numbered(m: map<string, CallLeg>, n: map<string, nat>, all: seq<CallLeg>) {
    m.Keys == n.Keys && forall t :: t in m ==> n[t] < |all| && all[n[t]] == m[t]
  }

  lemma NumberedInserted(m: map<string, CallLeg>, n: map<string, nat>, all: seq<CallLeg>, key: string, leg: CallLeg)
    requires Numbered(m, n, all)
    ensures Numbered(Inserted(m, key, leg), Inserted<nat>(n, key, |all|), all + [leg])
  {
  }

  class Sipster {
    var legs: map<string, map<string, CallLeg>>
    var rport: nat
    /** Every leg created, in order, and the map with each leg as its number. */
    ghost var all: seq<CallLeg>
    ghost var numbers: map<string, map<string, nat>>

    ghost predicate Valid()
      reads this
    {
      && (forall i, j :: 0 <= i < j < |all| ==> all[i] != all[j])
      && legs.Keys == numbers.Keys && forall c :: c in legs ==> Numbered(legs[c], numbers[c], all)
    }

    ghost function Values(): (r: seq<Leg>)
      reads this, all
      ensures |r| == |all| && forall i :: 0 <= i < |all| ==> r[i] == all[i].Value()
    {
      seq(|all|, i requires 0 <= i < |all| reads this, all => all[i].Value())
    }

    ghost function View(): Registry
      reads this, all
    {
      Registry(numbers, Values())
    }

    constructor (rport: nat)
      ensures Valid() && View() == START && this.rport == rport && all == []
    {
      legs, all, numbers, this.rport := map[], [], map[], rport;
    }

    /** sipster_sip_call_leg_create and its two relatives. */
    method CreateLeg(direction: Direction, callId: string, fromTag: string, toTag: string, handled: bool) returns (leg: CallLeg)
      requires Valid() && |callId| < 150
      modifies this`legs, this`all, this`numbers
      ensures Valid() && View() == Created(old(View()), direction, callId, fromTag, toTag)
      ensures fresh(leg) && all == old(all) + [leg] && leg.handled == handled && leg.remoteData == None
    {
      hide View, Valid, Add;
      leg := new CallLeg(direction, callId, fromTag, toTag, handled);
      Register(leg, callId, if direction == Inbound then toTag else fromTag);
    }

    /** Putting a leg into the nested map. */
    method Register(leg: CallLeg, callId: string, key: string)
      requires Valid() && leg !in all
      modifies this`legs, this`all, this`numbers
      ensures Valid() && View() == Add(old(View()), leg.Value(), callId, key) && all == old(all) + [leg]
    {
      hide Numbered, Inserted;
      ghost var r, before := View(), all;
      var tags := if callId in legs then legs[callId] else map[];
      ghost var n: map<string, nat> := if callId in numbers then numbers[callId] else map[];
      assert Numbered(map[], map[], all) by { NumberedEmpty(all); }
      NumberedInserted(tags, n, all, key, leg);
      forall c | c in legs ensures Numbered(legs[c], numbers[c], all + [leg]) { NumberedLonger(legs[c], numbers[c], all, leg); }
      numbers := numbers[callId := Inserted<nat>(n, key, |all|)];
      tags := Inserted(tags, key, leg);
      legs := legs[callId := tags];
      all := all + [leg];
      assert Values() == r.legs + [leg.Value()];
    }

    /** The leg that a Call-ID and a tag lead to. */
    method Lookup(callId: string, tag: string) returns (leg: CallLeg?)
      requires Valid()
      ensures leg == null <==> !Registered(View(), callId, tag)
      ensures leg != null ==> LegAt(View(), callId, tag) < |all| && leg == all[LegAt(View(), callId, tag)]
    {
      if callId in legs {
        var tagged := legs[callId];
        if tag in tagged {
          return tagged[tag];
        }
      }
      leg := null;
    }

    /** sipster_get_call_leg_for_request. The tag for a new leg is generated by the caller. */
    method GetCallLegForRequest(list: HeaderList, generated: string, create: bool, ghost vs: seq<Header>) returns (code: int, leg: CallLeg?)
      requires Valid() && list.Holds(vs)
      requires create && Opens(NoteOf(vs)) ==> NoteOf(vs).froms[0].Some? && |NoteOf(vs).callIds[0]| < 150
      modifies this`legs, this`all, this`numbers
      ensures Valid() && list.Holds(vs)
      ensures View() == OnRequest(old(View()), NoteOf(vs), generated, create).0
      ensures (match OnRequest(old(View()), NoteOf(vs), generated, create).1
        case Malformed => code == RETURN_MESSAGE_ERROR && leg == null
        case NotFound => code == RETURN_CALL_NOT_FOUND && leg == null
        case Found(k) => code == RETURN_OK && k < |all| && leg == all[k])
      ensures all == old(all) || (all == old(all) + [leg] && fresh(leg) && leg.handled && leg.remoteData == None)
    {
      hide HeaderList.Holds, SipHeader.Value, SipHeader.Valid, Created, Of, TagOf, DataOf, Valid, Registered, LegAt;
      var callIdHeader := TheHeader(list, CallId, vs);
      if callIdHeader == null {
        return RETURN_MESSAGE_ERROR, null;
      }
      var callId := callIdHeader.text;
      CallIdText(callIdHeader);
      var toHeader := TheHeader(list, To, vs);
      if toHeader == null {
        return RETURN_MESSAGE_ERROR, null;
      }
      var tag := GetTag(toHeader);
      if tag.Some? {
        leg := Lookup(callId, tag.value);
        if leg == null {
          return RETURN_CALL_NOT_FOUND, null;
        }
        return RETURN_OK, leg;
      }
      if !create {
        return RETURN_CALL_NOT_FOUND, null;
      }
      var fromHeader := TheHeader(list, From, vs);
      if fromHeader == null {
        return RETURN_MESSAGE_ERROR, null;
      }
      var fromTag := GetTag(fromHeader);
      leg := CreateLeg(Inbound, callId, fromTag.value, generated, true);
      code := RETURN_OK;
    }

    /** sipster_get_call_leg_for_response, which goes by the tag of the From header. */
    method GetCallLegForResponse(list: HeaderList, ghost vs: seq<Header>) returns (code: int, leg: CallLeg?)
      requires Valid() && list.Holds(vs)
      ensures list.Holds(vs)
      ensures (match LegFor(View(), NoteOf(vs))
        case Malformed => code == RETURN_MESSAGE_ERROR && leg == null
        case NotFound => code == RETURN_CALL_NOT_FOUND && leg == null
        case Unled => code == RETURN_OK && leg == null
        case Found(k) => code == RETURN_OK && k < |all| && leg == all[k])
    {
      hide HeaderList.Holds, SipHeader.Value, SipHeader.Valid, Of, TagOf, DataOf, Valid, Registered, LegAt, WellFormed;
      var callIdHeader := TheHeader(list, CallId, vs);
      if callIdHeader == null {
        return RETURN_MESSAGE_ERROR, null;
      }
      CallIdText(callIdHeader);
      var fromHeader := TheHeader(list, From, vs);
      if fromHeader == null {
        return RETURN_MESSAGE_ERROR, null;
      }
      var fromTag := GetTag(fromHeader);
      leg := null;
      if fromTag.Some? {
        leg := Lookup(callIdHeader.text, fromTag.value);
      }
      code := if leg == null && fromTag.Some? then RETURN_CALL_NOT_FOUND else RETURN_OK;
    }

    /** sipster_process_response: the leg learns its remote tag, and the handler's verdict is returned. */
    method ProcessResponse(response: Response, understood: bool, verdict: int, ghost vs: seq<Header>) returns (code: int, leg: CallLeg?)
      requires Valid() && WellFormed(View()) && response.headers.Holds(vs)
      requires Allowed(View(), LegRegistry.Response(NoteOf(vs)))
      modifies all
      ensures Valid() && View() == OnResponse(old(View()), NoteOf(vs)).0
      ensures (match OnResponse(old(View()), NoteOf(vs)).1
        case Malformed => code == RETURN_MESSAGE_ERROR && leg == null
        case NotFound => code == RETURN_CALL_NOT_FOUND && leg == null
        case Found(k) =>
          && k < |all| && leg == all[k]
          && code == if response.content.Some? && !understood then RETURN_MESSAGE_PARSE_ERROR else verdict)
      ensures (all == old(all) && forall l <- all ::
        l.remoteData == if l == leg && response.content.Some? && understood then Some(response.content.value.data) else old(l.remoteData))
      ensures leg == null ==> View() == old(View())
      ensures leg != null ==> NoteOf(vs).tos != [] && forall l <- all ::
        l.toTag == if l == leg && NoteOf(vs).tos[0].Some? then NoteOf(vs).tos[0].value else old(l.toTag)
    {
      hide HeaderList.Holds, SipHeader.Value, SipHeader.Valid, Of, TagOf, DataOf, Registered, LegAt, WellFormed, NoteOf;
      ghost var n := NoteOf(vs);
      code, leg := GetCallLegForResponse(response.headers, vs);
      if code != RETURN_OK {
        return;
      }
      var tag := FirstTag(response.headers, vs);
      if tag.Some? {
        leg.toTag := tag.value;
        assert Values() == OnResponse(old(View()), n).0.legs;
      }
      if response.content.Some? {
        if !understood {
          code := RETURN_MESSAGE_PARSE_ERROR;
          return;
        }
        leg.remoteData := Some(response.content.value.data);
      }
      code := verdict;
    }

    /** sipster_process_request: an error is answered at once, 400 or 481; otherwise the
        handler of the leg decides. */
    method ProcessRequest(request: SipMessages.Request, generated: string, understood: bool, verdict: int, ghost vs: seq<Header>)
      returns (code: int, reply: SipMessages.Response?, leg: CallLeg?)
      requires Valid() && WellFormed(View()) && request.headers.Holds(vs)
      requires Allowed(View(), LegRegistry.Request(NoteOf(vs), generated))
      requires Opens(NoteOf(vs)) ==> |NoteOf(vs).callIds[0]| < 150
      requires forall l <- all :: l.handled
      modifies this`legs, this`all, this`numbers, all
      ensures Valid() && View() == Next(old(View()), LegRegistry.Request(NoteOf(vs), generated))
      ensures request.headers.Holds(vs) && forall l <- all :: l.handled
      ensures (match OnRequest(old(View()), NoteOf(vs), generated, true).1
        case Malformed => reply != null && StatusCode(reply.line.status) == 400
        case NotFound => reply != null && StatusCode(reply.line.status) == 481
        case Found(k) =>
          && reply == null && k < |all| && leg == all[k]
          && code == if request.content.Some? && !understood then RETURN_MESSAGE_PARSE_ERROR else verdict)
      ensures forall l <- old(all) ::
        l.remoteData == if l == leg && request.content.Some? && understood then Some(request.content.value.data) else old(l.remoteData)
      ensures leg != null && leg !in old(all) ==>
        leg.remoteData == if request.content.Some? && understood then Some(request.content.value.data) else None
      ensures reply != null ==> reply.headers.Shows(SipResponses.Reply(vs, rport, None, None)) && reply.content == None
    {
      hide HeaderList.Holds, HeaderList.Shows, Of, TagOf, DataOf, WellFormed, NoteOf, OnRequest, StatusCode, Values;
      reply := null;
      code, leg := GetCallLegForRequest(request.headers, generated, true, vs);
      if code != RETURN_OK {
        Answers();
        if code == RETURN_MESSAGE_ERROR {
          reply := SipResponses.CreateResponse(request, rport, None, BAD_REQUEST, None, vs);
        } else {
          reply := SipResponses.CreateResponse(request, rport, None, CALL_DOES_NOT_EXIST, None, vs);
        }
        return;
      }
      if request.content.Some? {
        if !understood {
          code := RETURN_MESSAGE_PARSE_ERROR;
          return;
        }
        leg.remoteData := Some(request.content.value.data);
      }
      code := verdict;
    }
  }

  const BAD_REQUEST: Status := 14
  const CALL_DOES_NOT_EXIST: Status := 47

  lemma Answers()
    ensures StatusCode(BAD_REQUEST) == 400 && StatusCode(CALL_DOES_NOT_EXIST) == 481
    ensures !SipResponses.Succeeds(BAD_REQUEST) && !SipResponses.Succeeds(CALL_DOES_NOT_EXIST)
  {
  }

  /** The tag of the first To header. */
  method FirstTag(list: HeaderList, ghost vs: seq<Header>) returns (tag: Option<string>)
    requires list.Holds(vs) && NoteOf(vs).tos != []
    ensures tag == NoteOf(vs).tos[0]
  {
    hide HeaderList.Linked, HeaderList.Holding, HeaderList.Ended, CountOf, FirstOf, SipHeader.Value, SipHeader.Valid, Of, TagOf, Copied, Picked;
    SearchMeans(list, To);
    var leaf, copies := list.GetHeader(To);
    tag := GetTag(leaf.header);
  }

  lemma CallIdText(h: SipHeader)
    requires h.id == CallId
    ensures DataOf(h.Value()) == h.text
  {
  }

  lemma NumberedEmpty(all: seq<CallLeg>)
    ensures Numbered(map[], map[], all)
  {
  }

  lemma NumberedLonger(m: map<string, CallLeg>, n: map<string, nat>, all: seq<CallLeg>, leg: CallLeg)
    requires Numbered(m, n, all)
    ensures Numbered(m, n, all + [leg])
  {
  }
}
