/** sipster_sip_request_create_response (src/sip.cpp): a response built from clones of
    the headers of its request, as section 8.2.6.2 of RFC 3261 asks. */
module SipResponses {
  import opened Tokens
  import opened SipTables
  import opened HeaderText
  import opened MessageText
  import opened Params
  import opened SipHeaders
  import opened SipLists
  import opened SipMessages
  import opened HeaderReads

  /** The statuses from 200 OK to 204 No Notification in the table. */
  predicate Succeeds(status: Status) {
    6 <= status <= 8
  }

  lemma SucceedsMeans(status: Status)
    ensures Succeeds(status) <==> 200 <= StatusCode(status) < 300
  {
    Chunk(status);
  }

  // --------------------------------------------------------- what becomes of a header

  /** What a header of the request becomes: nothing for a Contact; a Via that has a
      parameter beginning with rport has its rport set, and the To its tag. */
  function Answer(h: Header, rport: nat, tag: Option<string>): seq<Header>
  {
    if h.id == Contact then []
    else if h.id == Via && h.fields.Address? && PlacePrefix(h.fields.params, "rport") < |h.fields.params| then
      [Header(Via, Address(h.fields.address, Put(h.fields.params, Param("rport", Cut(Digits(rport), 5)))))]
    else if h.id == To && h.fields.Address? && tag.Some? then
      [Header(To, Address(h.fields.address, Put(h.fields.params, Param("tag", Cut(tag.value, 29)))))]
    else [h]
  }

  function Answers(hs: seq<Header>, rport: nat, tag: Option<string>): seq<Header> {
    if hs == [] then [] else Answers(hs[..|hs| - 1], rport, tag) + Answer(hs[|hs| - 1], rport, tag)
  }

  // ------------------------------------------------- one tag record for every To

  /** What follows the tag in a list, nothing where there is none. */
  function RestOf(ps: seq<Param>): seq<Param> {
    var k := Params.Place(ps, "tag");
    if k < |ps| then ps[k + 1..] else []
  }

  predicate HasTag(h: Header) {
    h.fields.Address? && Params.Place(h.fields.params, "tag") < |h.fields.params|
  }

  /** What the one tag record leads to after some headers: what followed the tag in the last
      To that had one. */
  function Tail(hs: seq<Header>): seq<Param> {
    if hs == [] then [] else TailAfter(hs[|hs| - 1], Tail(hs[..|hs| - 1]))
  }

  function TailAfter(h: Header, tail: seq<Param>): seq<Param> {
    if h.id == To && HasTag(h) then RestOf(h.fields.params) else tail
  }

  /** A To with the tag record, which leads to `tail`. */
  function Tagged(h: Header, tag: string, tail: seq<Param>): Header
    requires h.fields.Address?
  {
    var ps := h.fields.params;
    Header(To, Address(h.fields.address, ps[..Params.Place(ps, "tag")] + [Param("tag", Cut(tag, 29))] + tail))
  }

  /** What a header of the request becomes when the tag record leads to `tail`. */
  function Shared(h: Header, rport: nat, tag: Option<string>, tail: seq<Param>): seq<Header> {
    if h.id == To && h.fields.Address? && tag.Some? then [Tagged(h, tag.value, tail)] else Answer(h, rport, tag)
  }

  function SharedAnswers(hs: seq<Header>, rport: nat, tag: Option<string>, tail: seq<Param>): seq<Header> {
    if hs == [] then [] else SharedAnswers(hs[..|hs| - 1], rport, tag, tail) + Shared(hs[|hs| - 1], rport, tag, tail)
  }

  /** What follows the tag is the same in every To header. */
  predicate SameRest(hs: seq<Header>) {
    forall i, j :: 0 <= i < |hs| && 0 <= j < |hs| && IsTo(hs[i]) && IsTo(hs[j]) ==>
      RestOf(hs[i].fields.params) == RestOf(hs[j].fields.params)
  }

  predicate IsTo(h: Header) {
    h.id == To && h.fields.Address?
  }

  lemma SharedOne(h: Header, rport: nat, tag: Option<string>, tail: seq<Param>)
    ensures |Shared(h, rport, tag, tail)| == |Answer(h, rport, tag)| <= 1
    ensures Shared(h, rport, tag, tail) == Answer(h, rport, tag) <==> (IsTo(h) && tag.Some? ==> RestOf(h.fields.params) == tail)
  {
    if IsTo(h) && tag.Some? {
      var ps := h.fields.params;
      var k, p := Params.Place(ps, "tag"), Param("tag", Cut(tag.value, 29));
      assert Put(ps, p) == ps[..k] + [p] + RestOf(ps);
      var a, b := ps[..k] + [p] + tail, ps[..k] + [p] + RestOf(ps);
      assert a[k + 1..] == tail && b[k + 1..] == RestOf(ps);
    }
  }

  lemma {:induction false} SharedEqual(hs: seq<Header>, rport: nat, tag: Option<string>, tail: seq<Param>)
    ensures |SharedAnswers(hs, rport, tag, tail)| == |Answers(hs, rport, tag)|
    ensures SharedAnswers(hs, rport, tag, tail) == Answers(hs, rport, tag) <==>
      (tag.Some? ==> forall i :: 0 <= i < |hs| && IsTo(hs[i]) ==> RestOf(hs[i].fields.params) == tail)
  {
    hide Answer, Shared, RestOf, IsTo;
    if hs != [] {
      var n := |hs| - 1;
      var front, h := hs[..n], hs[n];
      SharedEqual(front, rport, tag, tail);
      SharedOne(h, rport, tag, tail);
      Appended(SharedAnswers(front, rport, tag, tail), Shared(h, rport, tag, tail), Answers(front, rport, tag), Answer(h, rport, tag));
      assert forall i :: 0 <= i < n ==> front[i] == hs[i];
    }
  }

  lemma Appended(a: seq<Header>, b: seq<Header>, c: seq<Header>, d: seq<Header>)
    requires |a| == |c| && |b| == |d|
    ensures a + b == c + d <==> a == c && b == d
  {
    if a + b == c + d {
      assert a == (a + b)[..|a|] && b == (a + b)[|a|..];
    }
  }

  /** The tail comes from a To with a tag, or is empty where none has one. */
  lemma {:induction false} TailFrom(hs: seq<Header>) returns (i: nat)
    ensures i <= |hs| && (i < |hs| ==> IsTo(hs[i]) && HasTag(hs[i]) && Tail(hs) == RestOf(hs[i].fields.params))
    ensures i == |hs| ==> Tail(hs) == [] && forall j :: 0 <= j < |hs| && IsTo(hs[j]) ==> !HasTag(hs[j])
  {
    hide RestOf;
    if hs == [] {
      i := 0;
    } else {
      var n := |hs| - 1;
      i := TailFrom(hs[..n]);
      if hs[n].id == To && HasTag(hs[n]) { i := n; } else if i == n { i := |hs|; }
    }
  }

  /** The responses of the code are those that were asked for exactly if what follows the
      tag is the same in every To. */
  lemma SharedExact(hs: seq<Header>, rport: nat, tag: Option<string>)
    ensures SharedAnswers(hs, rport, tag, Tail(hs)) == Answers(hs, rport, tag) <==> tag == None || SameRest(hs)
  {
    hide Tail, Answers, SharedAnswers, Params.Place;
    SharedEqual(hs, rport, tag, Tail(hs));
    var i := TailFrom(hs);
  }

  /** The header when the tag record, which led to `n` parameters, leads to others. */
  function Retail(h: Header, n: nat, tail: seq<Param>): Header {
    if IsTo(h) && n <= |h.fields.params| then
      Header(To, Address(h.fields.address, h.fields.params[..|h.fields.params| - n] + tail))
    else h
  }

  function Retailed(hs: seq<Header>, n: nat, tail: seq<Param>): (r: seq<Header>)
    ensures |r| == |hs| && forall i :: 0 <= i < |hs| ==> r[i] == Retail(hs[i], n, tail)
  {
    if hs == [] then [] else Retailed(hs[..|hs| - 1], n, tail) + [Retail(hs[|hs| - 1], n, tail)]
  }

  lemma RetailTagged(h: Header, tag: string, tail: seq<Param>, other: seq<Param>)
    requires h.fields.Address?
    ensures Retail(Tagged(h, tag, tail), |tail|, other) == Tagged(h, tag, other)
  {
    var a := h.fields.params[..Params.Place(h.fields.params, "tag")] + [Param("tag", Cut(tag, 29))];
    assert (a + tail)[..|a + tail| - |tail|] == a;
  }

  lemma NoneTo(h: Header, rport: nat, tag: Option<string>)
    requires !IsTo(h)
    ensures |Answer(h, rport, tag)| <= 1 && forall r <- Answer(h, rport, tag) :: !IsTo(r)
  {
  }

  lemma RetailOne(h: Header, rport: nat, tag: Option<string>, tail: seq<Param>, other: seq<Param>)
    requires tag.Some?
    ensures Retailed(Shared(h, rport, tag, tail), |tail|, other) == Shared(h, rport, tag, other)
  {
    hide Answer, Tagged, Retailed;
    if IsTo(h) {
      RetailTagged(h, tag.value, tail, other);
    } else {
      NoneTo(h, rport, tag);
      assert forall r <- Answer(h, rport, tag) :: Retail(r, |tail|, other) == r;
    }
  }

  lemma {:induction false} RetailAll(hs: seq<Header>, rport: nat, tag: Option<string>, tail: seq<Param>, other: seq<Param>)
    requires tag.Some?
    ensures Retailed(SharedAnswers(hs, rport, tag, tail), |tail|, other) == SharedAnswers(hs, rport, tag, other)
  {
    hide Shared, Retail;
    if hs != [] {
      var n := |hs| - 1;
      RetailAll(hs[..n], rport, tag, tail, other);
      RetailOne(hs[n], rport, tag, tail, other);
      var a, b := SharedAnswers(hs[..n], rport, tag, tail), Shared(hs[n], rport, tag, tail);
      assert Retailed(a + b, |tail|, other) == Retailed(a, |tail|, other) + Retailed(b, |tail|, other);
    }
  }

  predicate OneTo(hs: seq<Header>) {
    forall i, j :: 0 <= i < |hs| && 0 <= j < |hs| && hs[i].id == To && hs[j].id == To ==> i == j
  }

  /** A To without parameters gains those that follow the tag of another To. */
  lemma TailGained()
    ensures var hs := [Header(To, Address("u", [])), Header(To, Address("v", [Param("tag", "a"), Param("x", "1")]))];
      SharedAnswers(hs, 5060, Some("t"), Tail(hs))
      == [Header(To, Address("u", [Param("tag", "t"), Param("x", "1")])), Header(To, Address("v", [Param("tag", "t"), Param("x", "1")]))]
  {
    var a, x, t := Param("tag", "a"), Param("x", "1"), Param("tag", "t");
    var g, h := Header(To, Address("u", [])), Header(To, Address("v", [a, x]));
    var hs := [g, h];
    assert hs[..1] == [g] && [g][..0] == [];
    assert Params.Place([a, x], "tag") == 0 && [a, x][1..] == [x];
    assert Tail(hs) == [x];
    assert Shared(g, 5060, Some("t"), [x]) == [Header(To, Address("u", [t, x]))] by { assert [] + [t] + [x] == [t, x]; }
    assert Shared(h, 5060, Some("t"), [x]) == [Header(To, Address("v", [t, x]))] by { assert [a, x][..0] + [t] + [x] == [t, x]; }
    assert SharedAnswers([g], 5060, Some("t"), [x]) == [Header(To, Address("u", [t, x]))];
  }

  /** The place of the first header with an identity, or the length. */
  function FirstPlace(hs: seq<Header>, id: HeaderId): (i: nat)
    ensures i <= |hs| && (i < |hs| ==> hs[i].id == id)
    ensures forall j :: 0 <= j < i ==> hs[j].id != id
  {
    if hs == [] || hs[0].id == id then 0 else 1 + FirstPlace(hs[1..], id)
  }

  /** The first header of a kind is set, or one is added. An empty list stays empty. */
  function Set(hs: seq<Header>, h: Header): seq<Header> {
    var i := FirstPlace(hs, h.id);
    if i < |hs| then hs[i := h] else if hs == [] then [] else hs + [h]
  }

  function TypeFor(hs: seq<Header>, contentType: string): Header {
    var i := FirstPlace(hs, ContentType);
    Header(ContentType, Address(contentType, if i < |hs| && hs[i].fields.Address? then hs[i].fields.params else []))
  }

  function Described(hs: seq<Header>, body: Option<Content>): seq<Header> {
    var t := if body.Some? then Set(hs, TypeFor(hs, body.value.contentType)) else hs;
    Set(t, Header(ContentLength, Number(if body.Some? then body.value.length else 0)))
  }

  function Reply(hs: seq<Header>, rport: nat, tag: Option<string>, body: Option<Content>): seq<Header> {
    Described(SharedAnswers(hs, rport, tag, Tail(hs)), body)
  }

  // --------------------------------------------------------------------- building it

  /** The rport of a Via clone, set to the port of the handle (RFC 3581). */
  method EditVia(copy: SipHeader, rport: nat, ghost v: Header)
    requires copy.Valid() && copy.Value() == v && v.id == Via
    modifies copy`first, copy`params, copy.params
    ensures copy.Valid() && Answer(v, rport, None) == [copy.Value()]
    ensures forall p <- copy.params :: p in old(copy.params) || fresh(p)
  {
    hide Chain, Contents, PlacePrefix, Put, Digits;
    PairsOf(copy.params);
    var p := ParameterGet("rport", copy.first, copy.params);
    if p != null {
      var port := Cut(Digits(rport), 5);
      var param := new Parameter("rport", port);
      assert param.Pair() == Param("rport", port);
      HeaderAppendParameter(copy, param);
    }
  }

  /** The list ends in the tag record and what that leads to. */
  ghost predicate EndsIn(ps: seq<Parameter>, toTag: Parameter, tail: seq<Parameter>) {
    |tail| < |ps| && ps[|ps| - |tail| - 1] == toTag && ps[|ps| - |tail|..] == tail
  }

  /** The tag record leads to `tail`, and the To headers of the list lead to it. */
  ghost predicate Tied(list: HeaderList, toTag: Parameter, tail: seq<Parameter>)
    reads list, list.headers, toTag, tail
  {
    Chain(toTag.next, tail) && toTag !in tail && Hung(list.headers, toTag, tail)
  }

  ghost predicate Hung(hs: seq<SipHeader>, toTag: Parameter, tail: seq<Parameter>)
    reads hs
  {
    forall h <- hs :: if h.id == To then EndsIn(h.params, toTag, tail) else toTag !in h.params
  }

  /** The tag of a To clone. */
  method EditTo(copy: SipHeader, toTag: Parameter, ghost tail: seq<Parameter>, ghost tag: string, ghost v: Header, ghost rport: nat)
    returns (ghost after: seq<Parameter>)
    requires copy.Valid() && copy.Value() == v && v.id == To
    requires Chain(toTag.next, tail) && toTag !in tail && toTag !in copy.params && forall p <- tail :: p !in copy.params
    requires toTag.Pair() == Param("tag", Cut(tag, 29))
    modifies copy`first, copy`params, copy.params, toTag`next
    ensures copy.Valid() && Shared(v, rport, Some(tag), Contents(after)) == [copy.Value()]
    ensures Chain(toTag.next, after) && toTag !in after && EndsIn(copy.params, toTag, after)
    ensures Contents(after) == TailAfter(v, old(Contents(tail)))
    ensures if HasTag(v) then forall p <- after :: p in old(copy.params) else after == tail && toTag.next == old(toTag.next)
    ensures forall p <- copy.params :: p in old(copy.params) || p == toTag || p in tail
  {
    hide Chain, Contents, Params.Place, PutBefore, Shared, Tagged, SipHeader.Value, HasTag, TailAfter, EndsIn;
    ghost var ps, was, held, text := copy.params, Contents(tail), Contents(copy.params), copy.text;
    ghost var k := Params.Place(held, "tag");
    PairsOf(ps);
    ChainFirst(toTag.next, tail);
    ValueId(copy);
    ToValue(copy);
    SharedTag(v, text, held, tag, was, rport);
    HeaderAppendShared(copy, toTag, tail);
    after := if k < |ps| then ps[k + 1..] else tail;
    PartsOf(copy.params, ps, k, toTag, tail, after);
    LastPart(copy.first, copy.params, k);
    ChainFirst(toTag.next, after);
    ToValue(copy);
  }

  lemma PartsOf(qs: seq<Parameter>, ps: seq<Parameter>, k: nat, toTag: Parameter, tail: seq<Parameter>, after: seq<Parameter>)
    requires k <= |ps| && qs == (if k < |ps| then ps[k := toTag] else ps + [toTag] + tail)
    requires after == if k < |ps| then ps[k + 1..] else tail
    ensures k < |qs| && qs[k] == toTag && qs[k + 1..] == after && EndsIn(qs, toTag, after)
    ensures forall p <- qs :: p in ps || p == toTag || p in tail
    ensures k < |ps| ==> forall p <- after :: p in ps
  {
    assert qs == ps[..k] + [toTag] + after;
  }

  lemma ToValue(h: SipHeader)
    requires h.id == To
    ensures h.Value() == Header(To, Address(h.text, Contents(h.params)))
  {
  }

  /** The list of a To with the tag record, and what follows the record there. */
  lemma SharedTag(v: Header, text: string, held: seq<Param>, tag: string, was: seq<Param>, rport: nat)
    requires v == Header(To, Address(text, held))
    ensures var p, k := Param("tag", Cut(tag, 29)), Params.Place(held, "tag");
      && Shared(v, rport, Some(tag), PutBefore(held, p, was)[k + 1..]) == [Header(To, Address(text, PutBefore(held, p, was)))]
      && k < |PutBefore(held, p, was)| && PutBefore(held, p, was)[k + 1..] == TailAfter(v, was)
      && (HasTag(v) <==> k < |held|)
  {
    hide Params.Place;
    var p, k := Param("tag", Cut(tag, 29)), Params.Place(held, "tag");
    var r := PutBefore(held, p, was);
    assert r[..k] == held[..k] && r[k] == p && r == r[..k] + [r[k]] + r[k + 1..];
    if k < |held| { assert r[k + 1..] == held[k + 1..]; } else { assert r[k + 1..] == was; }
  }

  /** All but the last `n` parameters. */
  ghost function Front(ps: seq<Parameter>, n: nat): seq<Parameter>
    requires n <= |ps|
  {
    ps[..|ps| - n]
  }

  /** The parameters of a To header, when the tag record has been led on to others. */
  ghost function Led(h: SipHeader, n: nat, after: seq<Parameter>): seq<Parameter>
    requires n <= |h.params|
    reads h
  {
    Front(h.params, n) + after
  }

  /** A header of a list between the change of the tag record and the bookkeeping for it. */
  ghost predicate Loose(nodes: set<Parameter>, h: SipHeader, u: Header, toTag: Parameter, n: nat, after: seq<Parameter>)
    reads h, h.params, after
  {
    && (forall p <- h.params :: p in nodes)
    && if h.id == To then
         && n <= |h.params| && Chain(h.first, Led(h, n, after)) && EndsIn(Led(h, n, after), toTag, after)
         && Header(To, Address(h.text, Contents(Led(h, n, after)))) == Retail(u, n, Contents(after))
       else h.Valid() && h.Value() == u && toTag !in h.params
  }

  /** The same header after it. */
  ghost predicate Told(nodes: set<Parameter>, h: SipHeader, u: Header, toTag: Parameter, n: nat, after: seq<Parameter>)
    reads h, h.params, after
  {
    && (forall p <- h.params :: p in nodes) && h.Valid() && h.Value() == Retail(u, n, Contents(after))
    && if h.id == To then EndsIn(h.params, toTag, after) else toTag !in h.params
  }

  /** The bookkeeping: every To header of the list gets its new parameters. */
  ghost method Retie(list: HeaderList, us: seq<Header>, toTag: Parameter, n: nat, after: seq<Parameter>)
    requires list.Linked() && list.Ended() && (list.leaves == [] ==> list.lastHeader == null)
    requires forall i, j :: 0 <= i < j < |list.headers| ==> list.headers[i] != list.headers[j]
    requires |us| == |list.headers| && forall i :: 0 <= i < |us| ==> Loose(list.nodes, list.headers[i], us[i], toTag, n, after)
    requires Chain(toTag.next, after) && toTag !in after
    modifies list`nodes, list.headers`params
    ensures list.Holds(Retailed(us, n, Contents(after))) && Tied(list, toTag, after)
  {
    hide Led, Told, Tied, Retailed, HeaderList.Holds, Loose, Chain, Contents, Retail, EndsIn, HeaderList.Linked, HeaderList.Ended,
      HeaderList.Holding, SipHeader.Value, SipHeader.Valid;
    ghost var k, hs, nodes := 0, list.headers, list.nodes;
    while k < |us|
      invariant k <= |us|
      invariant forall i :: 0 <= i < k ==> Told(nodes + Records(after), hs[i], us[i], toTag, n, after)
      invariant forall i :: k <= i < |us| ==> Loose(nodes, hs[i], us[i], toTag, n, after)
    {
      RetieOne(nodes, hs[k], us[k], toTag, n, after);
      k := k + 1;
    }
    list.nodes := nodes + Records(after);
    LinkedKept(list);
    Reheld(list, us, toTag, n, after);
  }

  ghost function Records(ps: seq<Parameter>): set<Parameter> {
    set p | p in ps
  }

  ghost method RetieOne(nodes: set<Parameter>, h: SipHeader, u: Header, toTag: Parameter, n: nat, after: seq<Parameter>)
    requires Loose(nodes, h, u, toTag, n, after)
    modifies h`params
    ensures Told(nodes + Records(after), h, u, toTag, n, after)
  {
    hide Chain, Contents, Retail, EndsIn, SipHeader.Value;
    if h.id == To {
      h.params := Led(h, n, after);
    }
    Retied(h, u, n, after);
  }

  lemma Reheld(list: HeaderList, us: seq<Header>, toTag: Parameter, n: nat, after: seq<Parameter>)
    requires list.Linked() && list.Ended() && (list.leaves == [] ==> list.lastHeader == null)
    requires forall i, j :: 0 <= i < j < |list.headers| ==> list.headers[i] != list.headers[j]
    requires |us| == |list.headers| && forall i :: 0 <= i < |us| ==> Told(list.nodes, list.headers[i], us[i], toTag, n, after)
    requires Chain(toTag.next, after) && toTag !in after
    ensures list.Holds(Retailed(us, n, Contents(after))) && Tied(list, toTag, after)
  {
    hide Chain, Contents, Retail, EndsIn, HeaderList.Linked, HeaderList.Ended, SipHeader.Value, SipHeader.Valid;
    assert list.Holding();
    assert list.Values() == Retailed(us, n, Contents(after));
  }

  lemma Retied(h: SipHeader, u: Header, n: nat, after: seq<Parameter>)
    requires if h.id == To then Header(To, Address(h.text, Contents(h.params))) == Retail(u, n, Contents(after)) else h.Value() == u
    ensures h.Value() == Retail(u, n, Contents(after))
  {
    hide Contents;
  }

  twostate lemma LinkedKept(list: HeaderList)
    requires old(list.Linked() && list.Ended())
    requires list.firstHeader == old(list.firstHeader) && list.lastHeader == old(list.lastHeader)
    requires list.leaves == old(list.leaves) && list.headers == old(list.headers) && list.shared == old(list.shared)
    requires unchanged(list.leaves) && (list.shared != null ==> unchanged(list.shared)) && (list.lastHeader != null ==> unchanged(list.lastHeader))
    ensures list.Linked() && list.Ended()
  {
    forall i | 0 <= i < |list.leaves| ensures list.LeafOk(i) { assert old(list.LeafOk(i)); }
  }

  /** Whatever a list has come to lead to is new. */
  twostate predicate Grown(list: HeaderList)
    reads list
  {
    && (list.lastHeader == old(list.lastHeader) || fresh(list.lastHeader))
    && (list.shared == old(list.shared) || fresh(list.shared))
    && forall h <- list.headers :: h in old(list.headers) || fresh(h)
  }

  method AppendHeld(list: HeaderList, header: SipHeader, ghost vs: seq<Header>)
    requires list.Holds(vs) && header.Valid() && header !in list.headers
    modifies list, list.lastHeader, list.shared
    ensures list.Holds(vs + [old(header.Value())]) && list.nodes == old(list.nodes) + (set p | p in header.params)
    ensures list.headers == old(list.headers) + [header]
    ensures list.lastHeader == old(list.lastHeader) || fresh(list.lastHeader)
    ensures list.shared == old(list.shared) || fresh(list.shared)
  {
    hide HeaderList.Linked, HeaderList.Holding, HeaderList.Ended, SipHeader.Valid, SipHeader.Value;
    list.Append(header);
  }

  /** The parameters before the tag record, which leads to `n` others. */
  ghost function Before(ps: seq<Parameter>, n: nat): seq<Parameter> {
    if n < |ps| then ps[..|ps| - n - 1] else []
  }

  ghost function Onward(before: seq<Parameter>, i: nat, toTag: Parameter): Parameter
    requires i < |before|
  {
    if i + 1 < |before| then before[i + 1] else toTag
  }

  /** `before` are linked one behind the other, and the last leads to the tag record. */
  ghost predicate LeadsTo(first: Parameter?, before: seq<Parameter>, toTag: Parameter)
    reads before
  {
    && AllDistinct(before) && toTag !in before
    && first == (if before == [] then toTag else before[0])
    && forall i :: 0 <= i < |before| ==> before[i].next == Onward(before, i, toTag)
  }

  /** The records of a header that stay as they are when the tag record changes. */
  ghost function Reached(h: SipHeader, n: nat): seq<Parameter>
    reads h
  {
    if h.id == To then Before(h.params, n) else h.params
  }

  /** What does not depend on where the tag record leads. */
  ghost predicate Fixed(nodes: set<Parameter>, h: SipHeader, u: Header, toTag: Parameter, p: Param, tail: seq<Parameter>, was: seq<Param>)
    reads h, Reached(h, |tail|)
  {
    && (forall p <- h.params :: p in nodes)
    && if h.id == To then
         && var before := Before(h.params, |tail|);
         && |tail| == |was| && h.params == before + [toTag] + tail && LeadsTo(h.first, before, toTag)
         && (forall q <- tail :: q !in before)
         && u == Header(To, Address(h.text, Contents(before) + [p] + was))
       else h.Valid() && h.Value() == u && toTag !in h.params
  }

  lemma EndsSplit(ps: seq<Parameter>, toTag: Parameter, tail: seq<Parameter>)
    requires EndsIn(ps, toTag, tail)
    ensures ps == Before(ps, |tail|) + [toTag] + tail
  {
  }

  lemma Parts(first: Parameter?, before: seq<Parameter>, toTag: Parameter, tail: seq<Parameter>)
    requires Chain(first, before + [toTag] + tail)
    ensures LeadsTo(first, before, toTag) && forall q <- tail :: q !in before
    ensures Contents(before + [toTag] + tail) == Contents(before) + [toTag.Pair()] + Contents(tail)
  {
    var ps, k := before + [toTag] + tail, |before|;
    ChainFirst(first, ps);
    assert ps[k] == toTag && (k > 0 ==> ps[0] == before[0]);
    forall i | 0 <= i < k ensures before[i].next == Onward(before, i, toTag) && before[i] != toTag {
      assert before[i] == ps[i];
      NextInChain(first, ps, i);
    }
    forall i, j | 0 <= i < j < k ensures before[i] != before[j] { assert before[i] == ps[i] && before[j] == ps[j]; }
    forall i, j | 0 <= i < k && 0 <= j < |tail| ensures before[i] != tail[j] { assert before[i] == ps[i] && tail[j] == ps[k + 1 + j]; }
  }

  /** Before the change of the tag record. */
  lemma Fix(nodes: set<Parameter>, h: SipHeader, u: Header, toTag: Parameter, tail: seq<Parameter>)
    requires h.Valid() && h.Value() == u && forall p <- h.params :: p in nodes
    requires if h.id == To then EndsIn(h.params, toTag, tail) else toTag !in h.params
    ensures Fixed(nodes, h, u, toTag, toTag.Pair(), tail, Contents(tail))
  {
    hide Chain, Contents, SipHeader.Value, LeadsTo, Before, EndsIn;
    if h.id == To {
      EndsSplit(h.params, toTag, tail);
      Parts(h.first, Before(h.params, |tail|), toTag, tail);
      PairsOf(tail);
      ToValue(h);
    }
  }

  lemma FixedApart(nodes: set<Parameter>, h: SipHeader, u: Header, toTag: Parameter, p: Param, tail: seq<Parameter>, was: seq<Param>)
    requires Fixed(nodes, h, u, toTag, p, tail, was)
    ensures forall q <- Reached(h, |tail|) :: q in nodes && q != toTag
  {
    if h.id == To { assert forall q <- Before(h.params, |tail|) :: q in h.params; }
  }

  lemma Chained(first: Parameter?, before: seq<Parameter>, toTag: Parameter, after: seq<Parameter>)
    requires LeadsTo(first, before, toTag) && Chain(toTag.next, after) && toTag !in after && forall q <- after :: q !in before
    ensures Chain(first, before + [toTag] + after)
    ensures Contents(before + [toTag] + after) == Contents(before) + [toTag.Pair()] + Contents(after)
  {
    hide Chain;
    var front := before + [toTag];
    assert Segment(first, front) by {
      forall i | 0 <= i < |front| - 1 ensures front[i].next == Follower(front, i) {
        assert before[i].next == Onward(before, i, toTag);
        assert Follower(front, i) == front[i + 1];
        if i + 1 == |before| { assert front[i + 1] == toTag; } else { assert front[i + 1] == before[i + 1]; }
      }
    }
    Params.Joined(first, front, after);
    assert Contents(front) == Contents(before) + [toTag.Pair()];
  }

  lemma LedEnds(ps: seq<Parameter>, before: seq<Parameter>, toTag: Parameter, tail: seq<Parameter>, after: seq<Parameter>)
    requires ps == before + [toTag] + tail
    ensures |tail| <= |ps| && Front(ps, |tail|) + after == before + [toTag] + after && EndsIn(before + [toTag] + after, toTag, after)
  {
    assert Front(ps, |tail|) == before + [toTag];
  }

  lemma RetailIs(text: string, a: seq<Param>, was: seq<Param>, b: seq<Param>)
    ensures Retail(Header(To, Address(text, a + was)), |was|, b) == Header(To, Address(text, a + b))
  {
    assert (a + was)[..|a|] == a;
  }

  /** After the change of the tag record. */
  lemma Refix(nodes: set<Parameter>, h: SipHeader, u: Header, toTag: Parameter, p: Param, tail: seq<Parameter>, was: seq<Param>, after: seq<Parameter>)
    requires Fixed(nodes, h, u, toTag, p, tail, was) && toTag.Pair() == p
    requires Chain(toTag.next, after) && toTag !in after && (after == tail || forall q <- after :: q !in nodes)
    ensures Loose(nodes, h, u, toTag, |tail|, after)
  {
    hide Chain, Contents, SipHeader.Value, LeadsTo, Before, EndsIn, Front, Retail;
    if h.id == To {
      var before := Before(h.params, |tail|);
      assert forall q <- before :: q in h.params;
      Chained(h.first, before, toTag, after);
      LedEnds(h.params, before, toTag, tail, after);
      RetailIs(h.text, Contents(before) + [p], was, Contents(after));
    }
  }

  ghost predicate FixedAll(nodes: set<Parameter>, hs: seq<SipHeader>, us: seq<Header>, toTag: Parameter, p: Param, tail: seq<Parameter>, was: seq<Param>)
    requires |hs| == |us|
    reads hs, nodes - {toTag}
  {
    forall i :: 0 <= i < |hs| ==> (forall q <- Reached(hs[i], |tail|) :: q in nodes && q != toTag) && Fixed(nodes, hs[i], us[i], toTag, p, tail, was)
  }

  /** The edit of a To clone, and what it leaves of other headers. */
  method EditAmong(copy: SipHeader, toTag: Parameter, ghost tail: seq<Parameter>, ghost tag: string, ghost v: Header, ghost rport: nat,
      ghost nodes: set<Parameter>, ghost hs: seq<SipHeader>, ghost us: seq<Header>)
    returns (ghost after: seq<Parameter>)
    requires copy.Valid() && copy.Value() == v && v.id == To
    requires Chain(toTag.next, tail) && toTag !in tail && toTag !in copy.params && forall p <- tail :: p !in copy.params
    requires toTag.Pair() == Param("tag", Cut(tag, 29))
    requires |hs| == |us| && FixedAll(nodes, hs, us, toTag, toTag.Pair(), tail, Contents(tail))
    requires copy !in hs && forall q <- copy.params :: q !in nodes
    modifies copy`first, copy`params, copy.params, toTag`next
    ensures copy.Valid() && Shared(v, rport, Some(tag), Contents(after)) == [copy.Value()]
    ensures Chain(toTag.next, after) && toTag !in after && EndsIn(copy.params, toTag, after)
    ensures Contents(after) == TailAfter(v, old(Contents(tail)))
    ensures forall i :: 0 <= i < |hs| ==> Loose(nodes, hs[i], us[i], toTag, |tail|, after)
  {
    hide Chain, Contents, SipHeader.Value, SipHeader.Valid, Shared, TailAfter, Fixed, Loose, EndsIn, Reached, FixedAll, HasTag;
    ghost var p, was := toTag.Pair(), Contents(tail);
    after := EditTo(copy, toTag, tail, tag, v, rport);
    assert FixedAll(nodes, hs, us, toTag, p, tail, was);
    forall i | 0 <= i < |hs| ensures Loose(nodes, hs[i], us[i], toTag, |tail|, after) {
      FixedAt(nodes, hs, us, toTag, p, tail, was, i);
      Refix(nodes, hs[i], us[i], toTag, p, tail, was, after);
    }
  }

  lemma FixedAt(nodes: set<Parameter>, hs: seq<SipHeader>, us: seq<Header>, toTag: Parameter, p: Param, tail: seq<Parameter>, was: seq<Param>, i: nat)
    requires |hs| == |us| && FixedAll(nodes, hs, us, toTag, p, tail, was) && i < |hs|
    ensures Fixed(nodes, hs[i], us[i], toTag, p, tail, was)
  {
  }

  lemma FixAll(list: HeaderList, us: seq<Header>, toTag: Parameter, tail: seq<Parameter>)
    requires list.Holding() && list.Values() == us && Hung(list.headers, toTag, tail)
    ensures |us| == |list.headers| && FixedAll(list.nodes, list.headers, us, toTag, toTag.Pair(), tail, Contents(tail))
  {
    hide Chain, Contents, SipHeader.Value, SipHeader.Valid, Fixed, EndsIn, Reached;
    forall i | 0 <= i < |us| ensures Fixed(list.nodes, list.headers[i], us[i], toTag, toTag.Pair(), tail, Contents(tail))
      ensures forall q <- Reached(list.headers[i], |tail|) :: q in list.nodes && q != toTag {
      Fix(list.nodes, list.headers[i], us[i], toTag, tail);
      FixedApart(list.nodes, list.headers[i], us[i], toTag, toTag.Pair(), tail, Contents(tail));
    }
  }

  /** The turn of the loop for a To when there is a tag. */
  method AnswerTo(list: HeaderList, header: SipHeader, rport: nat, toTag: Parameter, ghost tail: seq<Parameter>, ghost tag: string, ghost us: seq<Header>)
    returns (ghost after: seq<Parameter>)
    requires list.Holds(us) && header.Valid() && header.id == To && Tied(list, toTag, tail)
    requires toTag.Pair() == Param("tag", Cut(tag, 29))
    modifies list, list.lastHeader, list.shared, list.headers`params, toTag`next
    ensures list.Holds(Retailed(us, |tail|, Contents(after)) + Shared(old(header.Value()), rport, Some(tag), Contents(after)))
    ensures Tied(list, toTag, after) && Contents(after) == TailAfter(old(header.Value()), old(Contents(tail)))
    ensures Grown(list)
  {
    hide HeaderList.Holds, Chain, Contents, SipHeader.Value, SipHeader.Valid, Shared, TailAfter, Retailed, EndsIn, Hung;
    ghost var v := header.Value();
    ValueId(header);
    var copy := HeaderClone(header);
    ValueId(copy);
    after := TagAmong(list, copy, toTag, tail, tag, v, rport, us);
    ghost var hs := list.headers;
    AppendHeld(list, copy, Retailed(us, |tail|, Contents(after)));
    HungMore(hs, copy, toTag, after);
  }

  /** The edit of the clone, which is not in the list yet, and the bookkeeping for the list. */
  method TagAmong(list: HeaderList, copy: SipHeader, toTag: Parameter, ghost tail: seq<Parameter>, ghost tag: string, ghost v: Header, ghost rport: nat,
      ghost us: seq<Header>)
    returns (ghost after: seq<Parameter>)
    requires list.Holds(us) && Tied(list, toTag, tail) && toTag.Pair() == Param("tag", Cut(tag, 29))
    requires copy.Valid() && copy.Value() == v && v.id == To && copy !in list.headers
    requires toTag !in copy.params && forall q <- copy.params :: q !in list.nodes && q !in tail
    modifies copy`first, copy`params, copy.params, toTag`next, list`nodes, list.headers`params
    ensures list.Holds(Retailed(us, |tail|, Contents(after))) && Tied(list, toTag, after)
    ensures copy.Valid() && Shared(v, rport, Some(tag), Contents(after)) == [copy.Value()] && EndsIn(copy.params, toTag, after)
    ensures Contents(after) == TailAfter(v, old(Contents(tail)))
  {
    hide HeaderList.Linked, HeaderList.Ended, Chain, Contents, SipHeader.Value, SipHeader.Valid, Shared, TailAfter, Retailed, FixedAll, Loose, EndsIn, Hung;
    FixAll(list, us, toTag, tail);
    after := EditAmong(copy, toTag, tail, tag, v, rport, list.nodes, list.headers, us);
    Retie(list, us, toTag, |tail|, after);
  }

  lemma HungMore(hs: seq<SipHeader>, h: SipHeader, toTag: Parameter, tail: seq<Parameter>)
    requires Hung(hs, toTag, tail) && if h.id == To then EndsIn(h.params, toTag, tail) else toTag !in h.params
    ensures Hung(hs + [h], toTag, tail)
  {
  }

  /** The turn of the loop for any other header: clone, edit, append. */
  method AnswerOne(list: HeaderList, header: SipHeader, rport: nat, ghost tag: Option<string>, ghost us: seq<Header>)
    returns (ghost added: seq<SipHeader>)
    requires list.Holds(us) && header.Valid() && (tag.Some? ==> header.id != To)
    modifies list, list.lastHeader, list.shared
    ensures list.Holds(us + Answer(old(header.Value()), rport, tag)) && Grown(list)
    ensures list.headers == old(list.headers) + added && |added| <= 1
    ensures forall h <- added :: h.id == old(header.id) && forall p <- h.params :: fresh(p)
  {
    hide HeaderList.Holds, SipHeader.Valid, SipHeader.Value, Put, PlacePrefix, Answer;
    ghost var v := header.Value();
    ValueId(header);
    var copy := HeaderClone(header);
    ValueId(copy);
    if copy.id == Contact {
      ContactGone(v, rport, tag);
      assert us + [] == us;
      added := [];
      return;
    } else if copy.id == Via {
      EditVia(copy, rport, v);
    }
    OneAnswer(copy, v, rport, tag);
    AppendHeld(list, copy, us);
    added := [copy];
  }

  lemma ContactGone(v: Header, rport: nat, tag: Option<string>)
    requires v.id == Contact
    ensures Answer(v, rport, tag) == []
  {
  }

  lemma OneAnswer(copy: SipHeader, v: Header, rport: nat, tag: Option<string>)
    requires v.id != Contact && (tag.Some? ==> v.id != To)
    requires v.id == Via ==> Answer(v, rport, None) == [copy.Value()]
    requires v.id != Via ==> copy.Value() == v
    ensures Answer(v, rport, tag) == [copy.Value()]
  {
  }

  lemma AnswersStep(vs: seq<Header>, i: nat, rport: nat, tag: Option<string>, tail: seq<Param>)
    requires i < |vs|
    ensures SharedAnswers(vs[..i + 1], rport, tag, tail) == SharedAnswers(vs[..i], rport, tag, tail) + Shared(vs[i], rport, tag, tail)
    ensures Tail(vs[..i + 1]) == TailAfter(vs[i], Tail(vs[..i]))
    ensures tag == None || vs[i].id != To ==> Shared(vs[i], rport, tag, tail) == Answer(vs[i], rport, tag)
    ensures vs[i].id != To ==> TailAfter(vs[i], tail) == tail
  {
    hide Answer;
    assert vs[..i + 1][..i] == vs[..i];
  }

  /** The tag record, if there is one, and where it leads after some headers. */
  ghost predicate TagState(list: HeaderList, toTag: Parameter?, tag: Option<string>, tail: seq<Parameter>, vs: seq<Header>)
    reads list, list.headers, toTag, tail
  {
    if toTag == null then tag == None && tail == []
    else tag.Some? && toTag.Pair() == Param("tag", Cut(tag.value, 29)) && Tied(list, toTag, tail) && Contents(tail) == Tail(vs)
  }

  /** The turn of the loop for header `i`. */
  method AnswerNext(list: HeaderList, header: SipHeader, rport: nat, toTag: Parameter?, ghost tag: Option<string>, ghost tail: seq<Parameter>,
      ghost vs: seq<Header>, ghost i: nat)
    returns (ghost after: seq<Parameter>)
    requires i < |vs| && header.Valid() && header.Value() == vs[i] && TagState(list, toTag, tag, tail, vs[..i])
    requires list.Holds(SharedAnswers(vs[..i], rport, tag, Contents(tail)))
    modifies list, list.lastHeader, list.shared, list.headers`params, toTag
    ensures list.Holds(SharedAnswers(vs[..i + 1], rport, tag, Contents(after))) && TagState(list, toTag, tag, after, vs[..i + 1])
    ensures Grown(list)
  {
    hide HeaderList.Holds, SipHeader.Valid, SipHeader.Value, Answer, SharedAnswers, Shared, Tail, TailAfter, Hung, Chain, Contents, Retailed;
    ghost var was := Contents(tail);
    PairsOf(tail);
    ValueId(header);
    AnswersStep(vs, i, rport, tag, was);
    if header.id == To && toTag != null {
      after := AnswerTo(list, header, rport, toTag, tail, tag.value, SharedAnswers(vs[..i], rport, tag, was));
      RetailAll(vs[..i], rport, tag, was, Contents(after));
      AnswersStep(vs, i, rport, tag, Contents(after));
    } else {
      ghost var hs := list.headers;
      ghost var added := AnswerOne(list, header, rport, tag, SharedAnswers(vs[..i], rport, tag, was));
      after := tail;
      if toTag != null {
        if added == [] { assert hs + added == hs; } else { assert added == [added[0]]; HungMore(hs, added[0], toTag, tail); }
      }
    }
  }

  /** The loop over the headers of the request. One tag record goes into every To. */
  method AnswerAll(list: HeaderList, request: HeaderList, rport: nat, toTag: Parameter?, ghost tag: Option<string>, ghost vs: seq<Header>)
    requires list.Holds([]) && request.Holds(vs)
    requires list != request && list.lastHeader == null && list.shared == null && list.nodes == {} && list.headers == []
    requires if toTag == null then tag == None else tag.Some? && toTag.Pair() == Param("tag", Cut(tag.value, 29))
    requires toTag != null ==> toTag.next == null && toTag !in request.nodes
    modifies list, toTag
    ensures list.Holds(SharedAnswers(vs, rport, tag, Tail(vs))) && request.Holds(vs) && Grown(list)
  {
    hide HeaderList.Holds, SipHeader.Valid, SipHeader.Value, Answer, SharedAnswers, Shared, Tail, TailAfter, TagState, Chain, Contents;
    ghost var leaves := request.leaves;
    HeldLeaves(request, vs);
    NoAnswers(rport, tag);
    StartState(list, toTag, tag);
    assert vs[..0] == [];
    var current := request.firstHeader;
    ghost var i, tail := 0, [];
    while current != null
      invariant request.Holds(vs) && request.leaves == leaves && |leaves| == |vs|
      invariant i <= |vs| && current == (if i < |vs| then leaves[i] else null)
      invariant list.Holds(SharedAnswers(vs[..i], rport, tag, Contents(tail))) && TagState(list, toTag, tag, tail, vs[..i])
      invariant list.lastHeader == null || fresh(list.lastHeader)
      invariant list.shared == null || fresh(list.shared)
      invariant fresh(list.headers)
      decreases |vs| - i
    {
      HeldLeaf(request, vs, i);
      ghost var hs := list.headers;
      assert forall h <- hs :: fresh(h);
      tail := AnswerNext(list, current.header, rport, toTag, tag, tail, vs, i);
      forall j | 0 <= j < |list.headers| ensures fresh(list.headers[j]) { assert list.headers[j] in hs || fresh(list.headers[j]); }
      current := current.next;
      i := i + 1;
    }
    assert vs[..i] == vs;
    EndState(list, toTag, tag, tail, vs, rport);
  }

  lemma StartState(list: HeaderList, toTag: Parameter?, tag: Option<string>)
    requires list.headers == [] && if toTag == null then tag == None else tag.Some? && toTag.Pair() == Param("tag", Cut(tag.value, 29)) && toTag.next == null
    ensures TagState(list, toTag, tag, [], [])
  {
  }

  lemma EndState(list: HeaderList, toTag: Parameter?, tag: Option<string>, tail: seq<Parameter>, vs: seq<Header>, rport: nat)
    requires TagState(list, toTag, tag, tail, vs)
    ensures SharedAnswers(vs, rport, tag, Contents(tail)) == SharedAnswers(vs, rport, tag, Tail(vs))
  {
    hide SharedAnswers, Tail;
    if toTag == null {
      SharedEqual(vs, rport, tag, Contents(tail));
      SharedEqual(vs, rport, tag, Tail(vs));
    }
  }

  lemma NoAnswers(rport: nat, tag: Option<string>)
    ensures SharedAnswers([], rport, tag, Contents([])) == [] && Tail([]) == [] && Contents([]) == []
  {
  }

  lemma HeldLeaves(list: HeaderList, vs: seq<Header>)
    requires list.Holds(vs)
    ensures |list.leaves| == |vs| && list.firstHeader == if vs == [] then null else list.leaves[0]
  {
  }

  lemma HeldLeaf(list: HeaderList, vs: seq<Header>, i: nat)
    requires list.Holds(vs) && i < |vs|
    ensures |list.leaves| == |list.headers| == |vs| && list.leaves[i].header == list.headers[i]
    ensures list.leaves[i].next == if i + 1 < |vs| then list.leaves[i + 1] else null
    ensures list.headers[i].Valid() && list.headers[i].Value() == vs[i] && list.headers[i].id == vs[i].id
  {
    assert list.LeafOk(i);
  }

  // ----------------------------------------------------------- describing the body

  /** Writing to a header, which is number `i` of a list or is in none. */
  method Overwrite(list: HeaderList, h: SipHeader, id: HeaderId, text: string, number: nat, ghost i: nat, ghost vs: seq<Header>)
    requires list.Shows(vs) && if i < |list.headers| then list.headers[i] == h else h !in list.headers
    modifies h`id, h`text, h`number
    ensures |vs| == |list.headers| && list.Shows(if i < |vs| then vs[i := h.Value()] else vs)
    ensures h.Value() == Header(id, FieldsOf(id, text, number, old(h.method_), old(Contents(h.params))))
  {
    hide HeaderList.Linked, HeaderList.Ended, SipHeader.Value, Chain, Contents;
    ghost var was := list.Values();
    h.id, h.text, h.number := id, text, number;
    forall j | 0 <= j < |list.headers| ensures list.headers[j].Valid() && (j != i ==> list.headers[j].Value() == was[j]) {
      assert old(list.headers[j].Valid());
    }
    assert list.Holding();
    assert list.Values() == if i < |vs| then vs[i := h.Value()] else vs;
    WrittenValue(h);
  }

  lemma WrittenValue(h: SipHeader)
    ensures h.Value() == Header(h.id, FieldsOf(h.id, h.text, h.number, h.method_, Contents(h.params)))
  {
  }

  /** The first header of a kind, or a new one behind the last leaf. */
  method FirstOrNew(list: HeaderList, id: HeaderId, ghost vs: seq<Header>) returns (h: SipHeader, ghost i: nat, ghost us: seq<Header>)
    requires list.Shows(vs)
    modifies list`lastHeader, list`leaves, list`headers, list`nodes, list`shared, list.lastHeader, list.shared
    ensures list.Shows(us) && |list.headers| == |us| && (if i < |us| then list.headers[i] == h else h !in list.headers)
    ensures FirstPlace(vs, id) < |vs| ==> us == vs && i == FirstPlace(vs, id) && h.Value() == vs[i]
    ensures (FirstPlace(vs, id) == |vs| ==>
      && fresh(h) && h.params == [] && h.method_ == None && i == |vs|
      && if vs == [] then us == [] else |us| == |vs| + 1 && us[..|vs|] == vs)
    ensures (h in old(list.headers) || fresh(h)) && Grown(list)
  {
    hide HeaderList.Linked, HeaderList.Ended, HeaderList.Holding, SipHeader.Value, SipHeader.Valid, CountOf, FirstOf, FirstPlace, Copied, Picked;
    FirstMeans(list, id);
    i, us := FirstPlace(vs, id), vs;
    var current, copies := list.GetHeader(id);
    if current != null {
      h := current.header;
    } else {
      h, us := AddBlank(list, vs);
    }
  }

  /** A new header behind the last leaf. */
  method AddBlank(list: HeaderList, ghost vs: seq<Header>) returns (h: SipHeader, ghost us: seq<Header>)
    requires list.Shows(vs)
    modifies list`lastHeader, list`leaves, list`headers, list`nodes, list`shared, list.lastHeader, list.shared
    ensures fresh(h) && h.params == [] && h.method_ == None && list.Shows(us)
    ensures list.headers == if vs == [] then [] else old(list.headers) + [h]
    ensures if vs == [] then us == [] else |us| == |vs| + 1 && us[..|vs|] == vs
    ensures Grown(list) && |list.headers| == |us|
  {
    hide HeaderList.Linked, HeaderList.Ended, HeaderList.Holding, SipHeader.Value, SipHeader.Valid;
    h := new SipHeader(To);
    list.AppendLast(h);
    us := list.Values();
  }

  lemma FirstMeans(list: HeaderList, id: HeaderId)
    requires list.Holding()
    ensures FirstPlace(list.Values(), id) == FirstOf(list.Ids(), id) && |list.Values()| == |list.headers|
    ensures CountOf(list.Ids(), id) == 0 <==> FirstOf(list.Ids(), id) == |list.headers|
    ensures FirstOf(list.Ids(), id) < |list.headers| ==>
      list.headers[FirstOf(list.Ids(), id)].Value() == list.Values()[FirstOf(list.Ids(), id)]
  {
    hide SipHeader.Valid, SipHeader.Value, CountOf;
    var ids, vs := list.Ids(), list.Values();
    CountFirst(ids, id);
    forall j | 0 <= j < |ids| ensures vs[j].id == ids[j] { ValueId(list.headers[j]); }
    SameFirst(ids, vs, id);
  }

  lemma {:induction false} SameFirst(ids: seq<HeaderId>, vs: seq<Header>, id: HeaderId)
    requires |ids| == |vs| && forall j :: 0 <= j < |ids| ==> vs[j].id == ids[j]
    ensures FirstPlace(vs, id) == FirstOf(ids, id)
  {
    if ids != [] { SameFirst(ids[1..], vs[1..], id); }
  }

  /** The value written over the first header of its kind, or put at the end. */
  lemma WrittenOver(vs: seq<Header>, us: seq<Header>, i: nat, h: Header)
    requires FirstPlace(vs, h.id) < |vs| ==> us == vs && i == FirstPlace(vs, h.id)
    requires (FirstPlace(vs, h.id) == |vs| ==>
      i == |vs| && if vs == [] then us == [] else |us| == |vs| + 1 && us[..|vs|] == vs)
    ensures (if i < |us| then us[i := h] else us) == Set(vs, h)
  {
    hide FirstPlace;
    if FirstPlace(vs, h.id) == |vs| && vs != [] {
      assert us[i := h] == vs + [h];
    }
  }

  method DescribeType(list: HeaderList, contentType: string, ghost vs: seq<Header>)
    requires list.Shows(vs)
    modifies list, list.lastHeader, list.shared, list.headers
    ensures list.Shows(Set(vs, TypeFor(vs, contentType))) && Grown(list)
  {
    hide HeaderList.Shows, SipHeader.Value, FirstPlace, Set;
    var ct;
    ghost var i, us;
    ct, i, us := FirstOrNew(list, ContentType, vs);
    WrittenValue(ct);
    Overwrite(list, ct, ContentType, contentType, ct.number, i, us);
    NoRecord();
    WrittenOver(vs, us, i, ct.Value());
  }

  method DescribeLength(list: HeaderList, len: nat, ghost vs: seq<Header>)
    requires list.Shows(vs)
    modifies list, list.lastHeader, list.shared, list.headers
    ensures list.Shows(Set(vs, Header(ContentLength, Number(len)))) && Grown(list)
  {
    hide HeaderList.Shows, SipHeader.Value, FirstPlace, Set;
    var cl;
    ghost var i, us;
    cl, i, us := FirstOrNew(list, ContentLength, vs);
    Overwrite(list, cl, ContentLength, cl.text, len, i, us);
    WrittenOver(vs, us, i, cl.Value());
  }

  /** The headers that tell of the body. */
  method Describe(list: HeaderList, body: Option<Content>, ghost vs: seq<Header>)
    requires list.Shows(vs)
    modifies list, list.lastHeader, list.shared, list.headers
    ensures list.Shows(Described(vs, body)) && Grown(list)
  {
    hide HeaderList.Shows, Set, TypeFor;
    var len := 0;
    ghost var us := vs;
    if body.Some? {
      DescribeType(list, body.value.contentType, vs);
      us := Set(vs, TypeFor(vs, body.value.contentType));
      len := body.value.length;
      assert forall i :: 0 <= i < |list.headers| ==> list.headers[i] in list.headers;
    }
    DescribeLength(list, len, us);
  }

  /** sipster_sip_request_create_response. The tag of the leg goes into every To header of
      a response that succeeds, as one record; the request keeps all it had. */
  method CreateResponse(request: Request, rport: nat, legTag: Option<string>, status: Status, body: Option<Content>, ghost vs: seq<Header>)
    returns (response: Response)
    requires request.headers.Holds(vs)
    requires Succeeds(status) ==> legTag.Some?
    ensures fresh(response) && fresh(response.headers)
    ensures response.headers.Shows(Reply(vs, rport, if Succeeds(status) then legTag else None, body))
    ensures response.line == StatusLine(PROTOCOL, status, 0) && response.content == body
    ensures request.headers.Holds(vs)
  {
    hide HeaderList.Holds, HeaderList.Shows, SharedAnswers, Tail, Set;
    response := new Response(StatusLine(PROTOCOL, status, 0));
    response.content := body;
    var toTag: Parameter? := null;
    if Succeeds(status) {
      toTag := new Parameter("tag", legTag.value);
    }
    var list := response.headers;
    assert request.headers.Holds(vs);
    AnswerAll(list, request.headers, rport, toTag, if Succeeds(status) then legTag else None, vs);
    ghost var tag := if Succeeds(status) then legTag else None;
    ghost var us := SharedAnswers(vs, rport, tag, Tail(vs));
    Shown(list, us);
    assert forall i :: 0 <= i < |list.headers| ==> list.headers[i] in list.headers;
    Describe(list, body, us);
  }

  lemma Shown(list: HeaderList, vs: seq<Header>)
    requires list.Holds(vs)
    ensures list.Shows(vs)
  {
  }

  // ------------------------------------------------------------ what a response says

  /** The headers of the request but for every Contact, in order. */
  function Kept(hs: seq<Header>): seq<Header> {
    if hs == [] then [] else Kept(hs[..|hs| - 1]) + if hs[|hs| - 1].id == Contact then [] else [hs[|hs| - 1]]
  }

  /** A parameter list that has been given a value for a name, or not. */
  predicate Given(ps: seq<Param>, qs: seq<Param>, name: string, value: Option<string>) {
    if value.Some? then
      && Params.Find(qs, name) == value
      && (DistinctNames(ps) ==> DistinctNames(qs))
      && |qs| == (if Params.Find(ps, name).Some? then |ps| else |ps| + 1)
      && (forall i :: 0 <= i < |ps| && ps[i].name != name ==> qs[i] == ps[i])
    else qs == ps
  }

  predicate HasRport(h: Header) {
    h.fields.Address? && Params.Find(h.fields.params, "rport").Some?
  }

  /** A Via without rport, but with a parameter whose name begins with it. */
  predicate Misread(h: Header) {
    h.id == Via && h.fields.Address? && !HasRport(h) && exists p :: p in h.fields.params && "rport" <= p.name
  }

  /** What a header of the reply has to do with its original. */
  predicate Follows(h: Header, r: Header, rport: nat, tag: Option<string>) {
    && r.id == h.id
    && if h.fields.Address? && h.id in {Via, To} then
         && r.fields.Address? && r.fields.address == h.fields.address
         && (h.id == Via ==>
               Given(h.fields.params, r.fields.params, "rport", if HasRport(h) then Some(Cut(Digits(rport), 5)) else None))
         && (h.id == To ==>
               Given(h.fields.params, r.fields.params, "tag", if tag.Some? then Some(Cut(tag.value, 29)) else None))
       else r == h
  }

  /** The Via that a misread one becomes: it gains an rport. */
  function Gained(h: Header, rport: nat): Header
    requires h.fields.Address?
  {
    Header(Via, Address(h.fields.address, h.fields.params + [Param("rport", Cut(Digits(rport), 5))]))
  }

  lemma AnswerFollows(h: Header, rport: nat, tag: Option<string>)
    ensures if h.id == Contact then Answer(h, rport, tag) == []
      else |Answer(h, rport, tag)| == 1 && (Follows(h, Answer(h, rport, tag)[0], rport, tag) <==> !Misread(h))
    ensures Misread(h) ==> Answer(h, rport, tag) == [Gained(h, rport)]
  {
    hide Digits, Params.Place, PlacePrefix, Params.Find, DistinctNames, Cut, Put;
    if h.id == Via && h.fields.Address? {
      ViaFollows(h, rport);
    } else if h.id == To && h.fields.Address? && tag.Some? {
      PutMeans(h.fields.params, Param("tag", Cut(tag.value, 29)), "");
    }
  }

  lemma ViaFollows(h: Header, rport: nat)
    requires h.id == Via && h.fields.Address?
    ensures var ps, p := h.fields.params, Param("rport", Cut(Digits(rport), 5));
      && (PlacePrefix(ps, "rport") < |ps| <==> HasRport(h) || Misread(h))
      && Given(ps, Put(ps, p), "rport", Some(p.value))
      && (!HasRport(h) ==> Put(ps, p) == ps + [p] != ps)
  {
    hide Digits, DistinctNames, Cut, PlacePrefix;
    var ps := h.fields.params;
    PutMeans(ps, Param("rport", Cut(Digits(rport), 5)), "");
    PrefixExact(ps, "rport");
    if i :| 0 <= i < |ps| && "rport" <= ps[i].name { assert ps[i] in ps; }
  }

  /** The headers of a response are those of the request in order, without any Contact; a
      Via has its rport set only where it had one, a To has its tag exactly when one is
      given, and everything else is as it was: all this exactly of the headers that are not
      misread, and the misread ones gain an rport. */
  lemma {:induction false} AnswersFollow(hs: seq<Header>, rport: nat, tag: Option<string>)
    ensures |Answers(hs, rport, tag)| == |Kept(hs)|
    ensures forall i :: 0 <= i < |Kept(hs)| ==> (Follows(Kept(hs)[i], Answers(hs, rport, tag)[i], rport, tag) <==> !Misread(Kept(hs)[i]))
    ensures forall i :: 0 <= i < |Kept(hs)| && Misread(Kept(hs)[i]) ==> Answers(hs, rport, tag)[i] == Gained(Kept(hs)[i], rport)
    ensures forall i :: 0 <= i < |Kept(hs)| ==> Kept(hs)[i].id == Answers(hs, rport, tag)[i].id != Contact
  {
    hide Answer, Follows, Misread, Gained;
    if hs != [] {
      AnswersFollow(hs[..|hs| - 1], rport, tag);
      AnswerFollows(hs[|hs| - 1], rport, tag);
      SameId(hs[|hs| - 1], rport, tag);
    }
  }

  lemma SameId(h: Header, rport: nat, tag: Option<string>)
    ensures forall r :: r in Answer(h, rport, tag) ==> r.id == h.id
  {
  }

  /** A Via whose only parameter is called rportx gains an rport. */
  lemma RportMisread()
    ensures var h := Header(Via, Address("h", [Param("rportx", "1")]));
      !HasRport(h) && Answer(h, 5060, None) == [Header(Via, Address("h", [Param("rportx", "1"), Param("rport", "5060")]))]
  {
    var p := Param("rportx", "1");
    var ps := [p];
    assert "rport" <= p.name && p.name != "rport";
    assert p in ps;
    AnswerFollows(Header(Via, Address("h", ps)), 5060, None);
    assert Digits(5) == "5" && Digits(50) == "50" && Digits(506) == "506" && Digits(5060) == "5060";
    assert ps + [Param("rport", "5060")] == [p, Param("rport", "5060")];
  }

  lemma SetMeans(hs: seq<Header>, h: Header)
    requires hs != []
    ensures var r := Set(hs, h); var i := FirstPlace(r, h.id);
      && i < |r| && r[i] == h && (i < |hs| ==> hs[i].id == h.id) && |r| == (if FirstPlace(hs, h.id) < |hs| then |hs| else |hs| + 1)
      && forall j :: 0 <= j < |hs| && j != i ==> r[j] == hs[j]
  {
    var k, r := FirstPlace(hs, h.id), Set(hs, h);
    assert r[k] == h;
    assert forall j :: 0 <= j < k ==> r[j] == hs[j];
  }

  lemma SetKeepsFirst(hs: seq<Header>, h: Header, id: HeaderId)
    requires id != h.id && FirstPlace(hs, id) < |hs|
    ensures FirstPlace(Set(hs, h), id) == FirstPlace(hs, id) && Set(hs, h)[FirstPlace(hs, id)] == hs[FirstPlace(hs, id)]
  {
    var k, r := FirstPlace(hs, id), Set(hs, h);
    assert forall j :: 0 <= j < k ==> r[j] == hs[j] || r[j] == h;
    assert r[k] == hs[k];
  }

  lemma {:induction false} SharedIds(hs: seq<Header>, rport: nat, tag: Option<string>, tail: seq<Param>)
    ensures |SharedAnswers(hs, rport, tag, tail)| == |Kept(hs)|
    ensures forall i :: 0 <= i < |Kept(hs)| ==> SharedAnswers(hs, rport, tag, tail)[i].id == Kept(hs)[i].id
  {
    hide Shared, Answer;
    if hs != [] {
      var h := hs[|hs| - 1];
      SharedIds(hs[..|hs| - 1], rport, tag, tail);
      SharedId(h, rport, tag, tail);
    }
  }

  lemma SharedId(h: Header, rport: nat, tag: Option<string>, tail: seq<Param>)
    ensures |Shared(h, rport, tag, tail)| == if h.id == Contact then 0 else 1
    ensures forall r <- Shared(h, rport, tag, tail) :: r.id == h.id
  {
  }

  function ParamsIn(h: Header): seq<Param> {
    if h.fields.Address? then h.fields.params else []
  }

  /** Without a body, `r` is `hs` with its first Content-Length 0, or with one added at the end.
      With a body, its first Content-Type has the type of the body, with the parameters it had,
      and its first Content-Length the length; where there was none of them it is added at the
      end, and nothing else is added or changed. */
  predicate Tells(hs: seq<Header>, r: seq<Header>, body: Option<Content>) {
    var t, c := FirstPlace(hs, ContentType), FirstPlace(hs, ContentLength);
    var said := Header(ContentLength, Number(if body.Some? then body.value.length else 0));
    var typed := body.Some? && t == |hs|;
    && |hs| <= |r|
    && r[|hs|..] == (if typed then [Header(ContentType, Address(body.value.contentType, []))] else []) + (if c < |hs| then [] else [said])
    && forall k :: 0 <= k < |hs| ==>
         r[k] == if k == c then said
                 else if k == t && body.Some? then Header(ContentType, Address(body.value.contentType, ParamsIn(hs[k])))
                 else hs[k]
  }

  lemma DescribedTells(hs: seq<Header>, body: Option<Content>)
    requires hs != []
    ensures Tells(hs, Described(hs, body), body)
  {
    var n := |hs|;
    var c, t := FirstPlace(hs, ContentLength), FirstPlace(hs, ContentType);
    var r := Described(hs, body);
    if body.Some? {
      var h := TypeFor(hs, body.value.contentType);
      var u := Set(hs, h);
      SetFirst(hs, h, ContentLength);
      assert r[n..] == (if t < n then [] else [h]) + (if c < n then [] else [r[|r| - 1]]);
    } else {
      assert r[n..] == if c < n then [] else [r[n]];
    }
  }

  /** Setting a header moves no first header of another kind. */
  lemma SetFirst(hs: seq<Header>, h: Header, id: HeaderId)
    requires id != h.id && hs != []
    ensures FirstPlace(Set(hs, h), id) == if FirstPlace(hs, id) < |hs| then FirstPlace(hs, id) else |Set(hs, h)|
  {
    hide FirstPlace, Set;
    var k, r := FirstPlace(hs, id), Set(hs, h);
    SetMeans(hs, h);
    var i := FirstPlace(r, h.id);
    FirstIs(r, id, if k < |hs| then k else |r|);
  }

  lemma FirstIs(hs: seq<Header>, id: HeaderId, i: nat)
    requires i <= |hs| && (i < |hs| ==> hs[i].id == id) && forall j :: 0 <= j < i ==> hs[j].id != id
    ensures FirstPlace(hs, id) == i
  {
    hide FirstPlace;
  }

  /** Where a header of the request comes in the answers to it. */
  lemma {:induction false} SharedAt(hs: seq<Header>, k: nat, rport: nat, tag: Option<string>, tail: seq<Param>)
    requires k < |hs| && hs[k].id != Contact
    ensures var j := |Kept(hs[..k])|;
      j < |SharedAnswers(hs, rport, tag, tail)| && Shared(hs[k], rport, tag, tail) == [SharedAnswers(hs, rport, tag, tail)[j]]
  {
    hide Shared, Answer;
    var n := |hs| - 1;
    SharedIds(hs[..n], rport, tag, tail);
    SharedId(hs[k], rport, tag, tail);
    if k < n {
      SharedAt(hs[..n], k, rport, tag, tail);
      assert hs[..n][..k] == hs[..k];
    }
  }

  /** The texts of the parameters of a Via around a bare rport. */
  function WithRport(before: seq<Written>, after: seq<Written>): seq<Written> {
    before + [Flag("rport")] + after
  }

  lemma RportMeanings(before: seq<Written>, after: seq<Written>)
    ensures Meanings(WithRport(before, after)) == Meanings(before) + [Param("rport", "")] + Meanings(after)
    ensures (forall w <- before :: w.name != "rport") ==> Params.Place(Meanings(WithRport(before, after)), "rport") == |before|
  {
    hide Cut;
    var ps := Meanings(WithRport(before, after));
    assert Cut("rport", 19) == "rport";
    assert Meaning(Flag("rport")) == Param("rport", "");
    assert ps == Meanings(before) + [Param("rport", "")] + Meanings(after);
    if forall w <- before :: w.name != "rport" {
      forall i | 0 <= i < |before| ensures ps[i].name != "rport" {
        assert before[i] in before && ps[i] == Meaning(before[i]);
        CutApart(before[i].name);
      }
      assert ps[|before|].name == "rport";
    }
  }

  lemma CutApart(name: string)
    requires name != "rport"
    ensures Cut(name, 19) != "rport"
  {
    hide Cut;
    CutMeans(name, 19);
    assert |"rport"| == 5;
  }

  /** A Via line with a bare rport, as section 3 of RFC 3581 has it, comes into the response with
      the port there and everything else as it was. */
  lemma RportAnswered(hs: seq<Header>, k: nat, name: string, w: string, version: string, a: string, before: seq<Written>,
      after: seq<Written>, rest: string, rport: nat, tag: Option<string>, body: Option<Content>)
    requires Named(Via, name) && AllSpace(w) && version != "" && !IsSpace(version[0]) && Free(version, " ") && Free(a, ";")
    requires AllClean(WithRport(before, after)) && Over(WithRport(before, after), rest) && forall x <- before :: x.name != "rport"
    requires k < |hs|
    requires ParseHeader(name + ":" + (w + (version + " " + (a + ";" + (WrittenList(WithRport(before, after)) + rest))))) == Some(hs[k])
    ensures (var r := Reply(hs, rport, tag, body); var j := |Kept(hs[..k])|;
      && j < |r|
      && r[j] == Header(Via, Address(Cut(a, 255), Meanings(before) + [Param("rport", Cut(Digits(rport), 5))] + Meanings(after))))
  {
    hide ParseHeader, Digits, Cut, SharedAnswers, Tail, Clean, Over, WrittenList, Described, Meanings, Meaning, Answer, WithRport, Tells;
    var ws := WithRport(before, after);
    ViaLineRead(name, w, version, a, ws, rest);
    RportSet(hs[k], Cut(a, 255), before, after, rport, tag);
    var tail := Tail(hs);
    SharedAt(hs, k, rport, tag, tail);
    assert Shared(hs[k], rport, tag, tail) == Answer(hs[k], rport, tag);
    ViaTold(SharedAnswers(hs, rport, tag, tail), |Kept(hs[..k])|, body);
  }

  lemma RportSet(h: Header, a: string, before: seq<Written>, after: seq<Written>, rport: nat, tag: Option<string>)
    requires h == Header(Via, Address(a, Meanings(WithRport(before, after)))) && forall x <- before :: x.name != "rport"
    ensures (Answer(h, rport, tag)
      == [Header(Via, Address(a, Meanings(before) + [Param("rport", Cut(Digits(rport), 5))] + Meanings(after)))])
  {
    hide Digits, Cut, Params.Place, PlacePrefix, Meanings, Meaning, WithRport;
    var ps, p := h.fields.params, Param("rport", Cut(Digits(rport), 5));
    RportMeanings(before, after);
    PrefixExact(ps, "rport");
    assert ps[|before| := p] == Meanings(before) + [p] + Meanings(after);
  }

  lemma ViaTold(hs: seq<Header>, j: nat, body: Option<Content>)
    requires j < |hs| && hs[j].id == Via
    ensures j < |Described(hs, body)| && Described(hs, body)[j] == hs[j]
  {
    hide FirstPlace, Described;
    DescribedTells(hs, body);
  }

  /** The first Content-Length of a response gives the length of its body, or 0, and the
      first Content-Type its type, unless every header of the request was a Contact. */
  lemma ReplyDescribes(hs: seq<Header>, rport: nat, tag: Option<string>, body: Option<Content>)
    ensures Kept(hs) == [] ==> Reply(hs, rport, tag, body) == []
    ensures Kept(hs) != [] ==>
      (var r := Reply(hs, rport, tag, body); var i, j := FirstPlace(r, ContentLength), FirstPlace(r, ContentType);
       && i < |r| && r[i].fields == Number(if body.Some? then body.value.length else 0)
       && (body.Some? ==> j < |r| && r[j].fields.Address? && r[j].fields.address == body.value.contentType))
    ensures (var r, a := Reply(hs, rport, tag, body), SharedAnswers(hs, rport, tag, Tail(hs));
      && |Kept(hs)| == |a| <= |r| <= |Kept(hs)| + 2
      && (a != [] ==> Tells(a, r, body))
      && forall k :: 0 <= k < |a| && Kept(hs)[k].id !in {ContentLength, ContentType} ==> r[k] == a[k])
    ensures (tag == None || SameRest(hs) ==>
      var r := Reply(hs, rport, tag, body);
      |r| >= |Kept(hs)| && forall k :: 0 <= k < |Kept(hs)| && Kept(hs)[k].id !in {ContentLength, ContentType} ==>
           (Follows(Kept(hs)[k], r[k], rport, tag) <==> !Misread(Kept(hs)[k])))
  {
    hide Answers, SharedAnswers, Tail, SameRest, FirstPlace, Set, Follows, Misread, Gained, Tells;
    AnswersFollow(hs, rport, tag);
    SharedIds(hs, rport, tag, Tail(hs));
    SharedExact(hs, rport, tag);
    var a := SharedAnswers(hs, rport, tag, Tail(hs));
    if a != [] { DescribedTells(a, body); }
    if a == [] {
      assert forall h :: Set([], h) == [] by { forall h ensures Set([], h) == [] { SetNothing(h); } }
    } else {
      var t := a;
      if body.Some? {
        var h := TypeFor(a, body.value.contentType);
        SetMeans(a, h);
        t := Set(a, h);
        SetKeepsFirst(t, Header(ContentLength, Number(body.value.length)), ContentType);
      }
      SetMeans(t, Header(ContentLength, Number(if body.Some? then body.value.length else 0)));
    }
  }

  lemma SetNothing(h: Header)
    ensures Set([], h) == []
  {
  }
}
