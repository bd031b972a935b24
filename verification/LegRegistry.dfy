/** The registry of call legs (src/sipster.cpp) as a state machine: a map from Call-ID
    and local tag to legs, and what creation, requests and responses do to it. */
module LegRegistry {
  import opened SipTables
  import opened HeaderText
  import opened Params

  datatype Direction = Inbound | Outbound

  datatype Leg = Leg(direction: Direction, callId: string, fromTag: string, toTag: string)

  /** The legs in the order of their creation, and the places that they are registered under. */
  datatype Registry = Registry(tags: map<string, map<string, nat>>, legs: seq<Leg>)

  /** What the lookups read of a message: the Call-ID, To and From headers, the last two by their tags. */
  datatype Note = Note(callIds: seq<string>, tos: seq<Option<string>>, froms: seq<Option<string>>)

  /** `Unled` is success without a leg: a response whose From header has no tag. */
  datatype Outcome = Malformed | NotFound | Found(leg: nat) | Unled

  /** The tag under which a leg is to be registered. */
  function LocalTag(l: Leg): string {
    if l.direction == Inbound then l.toTag else l.fromTag
  }

  predicate Registered(r: Registry, callId: string, tag: string) {
    callId in r.tags && tag in r.tags[callId]
  }

  function LegAt(r: Registry, callId: string, tag: string): nat
    requires Registered(r, callId, tag)
  {
    r.tags[callId][tag]
  }

  // ------------------------------------------------------------------------- steps

  /** `std::map::insert`, which leaves an existing entry alone. */
  function Inserted<V>(m: map<string, V>, k: string, v: V): map<string, V> {
    if k in m then m else m[k := v]
  }

  /** A new leg, registered unless its place is taken. */
  function Add(r: Registry, l: Leg, callId: string, tag: string): Registry {
    var tags: map<string, nat> := if callId in r.tags then r.tags[callId] else map[];
    Registry(r.tags[callId := Inserted<nat>(tags, tag, |r.legs|)], r.legs + [l])
  }

  /** The buffers of a leg: 14 characters for a tag. */
  function Created(r: Registry, d: Direction, callId: string, fromTag: string, toTag: string): Registry {
    Add(r, Leg(d, callId, Cut(fromTag, 14), Cut(toTag, 14)), callId, if d == Inbound then toTag else fromTag)
  }

  /** A request for which a leg is to be created: its From tag is then read without a check. */
  predicate Opens(n: Note) {
    |n.callIds| == |n.tos| == |n.froms| == 1 && n.tos[0] == None
  }

  function OnRequest(r: Registry, n: Note, generated: string, create: bool): (o: (Registry, Outcome))
    requires create && Opens(n) ==> n.froms[0].Some?
    ensures !o.1.Unled?
  {
    if |n.callIds| != 1 || |n.tos| != 1 then (r, Malformed)
    else if n.tos[0].Some? then
      (r, if Registered(r, n.callIds[0], n.tos[0].value) then Found(LegAt(r, n.callIds[0], n.tos[0].value)) else NotFound)
    else if !create then (r, NotFound)
    else if |n.froms| != 1 then (r, Malformed)
    else (Created(r, Inbound, n.callIds[0], n.froms[0].value, generated), Found(|r.legs|))
  }

  /** A response that leads to a leg: its Call-ID and From tag are registered. */
  predicate Leads(r: Registry, n: Note) {
    |n.callIds| == |n.froms| == 1 && n.froms[0].Some? && Registered(r, n.callIds[0], n.froms[0].value)
  }

  /** The lookup for a response, which never reads its To headers. */
  function LegFor(r: Registry, n: Note): (o: Outcome)
    ensures o.Found? <==> Leads(r, n)
  {
    if |n.callIds| != 1 || |n.froms| != 1 then Malformed
    else if n.froms[0] == None then Unled
    else if !Registered(r, n.callIds[0], n.froms[0].value) then NotFound
    else Found(LegAt(r, n.callIds[0], n.froms[0].value))
  }

  /** Where the leg is found, the tag of the first To header becomes its remote tag. */
  function OnResponse(r: Registry, n: Note): (Registry, Outcome)
    requires WellFormed(r) && (Leads(r, n) ==> n.tos != [])
  {
    var o := LegFor(r, n);
    (if o.Found? && n.tos[0].Some? then r.(legs := r.legs[o.leg := r.legs[o.leg].(toTag := n.tos[0].value)]) else r, o)
  }

  // -------------------------------------------------------------------- invariants

  /** Every entry leads to a leg of its Call-ID, and no leg has two entries. */
  ghost predicate WellFormed(r: Registry) {
    && (forall c, t :: Registered(r, c, t) ==> LegAt(r, c, t) < |r.legs| && r.legs[LegAt(r, c, t)].callId == c)
    && (forall c, t, d, u :: Registered(r, c, t) && Registered(r, d, u) && LegAt(r, c, t) == LegAt(r, d, u) ==> c == d && t == u)
  }

  /** Every key is the local tag of its leg. */
  ghost predicate Keyed(r: Registry)
    requires WellFormed(r)
  {
    forall c, t :: Registered(r, c, t) ==> LocalTag(r.legs[LegAt(r, c, t)]) == t
  }

  /** What is registered stays where it is, and a leg keeps all but its remote tag. */
  ghost predicate Extends(r: Registry, s: Registry) {
    && (forall c, t :: Registered(r, c, t) ==> Registered(s, c, t) && LegAt(s, c, t) == LegAt(r, c, t))
    && |r.legs| <= |s.legs|
    && forall k :: 0 <= k < |r.legs| ==>
         s.legs[k].direction == r.legs[k].direction && s.legs[k].callId == r.legs[k].callId && s.legs[k].fromTag == r.legs[k].fromTag
  }

  lemma AddKeeps(r: Registry, l: Leg, callId: string, tag: string)
    requires WellFormed(r) && l.callId == callId
    ensures WellFormed(Add(r, l, callId, tag)) && Extends(r, Add(r, l, callId, tag))
    ensures Keyed(r) ==> (Keyed(Add(r, l, callId, tag)) <==> LocalTag(l) == tag || Registered(r, callId, tag))
    ensures forall c, t :: Registered(Add(r, l, callId, tag), c, t) <==> Registered(r, c, t) || (c == callId && t == tag)
    ensures !Registered(r, callId, tag) ==> LegAt(Add(r, l, callId, tag), callId, tag) == |r.legs|
  {
    var s := Add(r, l, callId, tag);
    forall c, t | Registered(s, c, t)
      ensures Registered(r, c, t) || (c == callId && t == tag)
      ensures if Registered(r, c, t) then LegAt(s, c, t) == LegAt(r, c, t) else LegAt(s, c, t) == |r.legs| {
    }
  }

  /** Creating a leg: it comes behind the others with the tags that fit its buffers, and its
      Call-ID and local tag lead to it, or still to the leg that they led to before. */
  lemma CreationAdds(r: Registry, d: Direction, callId: string, fromTag: string, toTag: string)
    requires WellFormed(r)
    ensures var s, key := Created(r, d, callId, fromTag, toTag), match d { case Inbound => toTag case Outbound => fromTag };
      && s.legs == r.legs + [Leg(d, callId, Cut(fromTag, 14), Cut(toTag, 14))]
      && (forall c, t :: Registered(s, c, t) <==> Registered(r, c, t) || (c == callId && t == key))
      && (forall c, t :: Registered(s, c, t) ==> LegAt(s, c, t) == if Registered(r, c, t) then LegAt(r, c, t) else |r.legs|)
  {
    hide Cut, WellFormed;
    AddKeeps(r, Leg(d, callId, Cut(fromTag, 14), Cut(toTag, 14)), callId, if d == Inbound then toTag else fromTag);
  }

  /** When a request is malformed, not found, or found with its leg; and it changes the
      registry only by opening a leg. */
  lemma RequestVerdict(r: Registry, n: Note, generated: string, create: bool)
    requires create && Opens(n) ==> n.froms[0].Some?
    ensures var (s, o) := OnRequest(r, n, generated, create); var headed := |n.callIds| == |n.tos| == 1;
      && (o == Malformed <==> headed ==> create && n.tos[0] == None && |n.froms| != 1)
      && (o == NotFound <==> headed && if n.tos[0] == None then !create else !Registered(r, n.callIds[0], n.tos[0].value))
      && (o.Found? && n.tos[0].Some? ==> o.leg == LegAt(r, n.callIds[0], n.tos[0].value))
      && (s != r <==> create && Opens(n))
  {
    hide Created;
    if create && Opens(n) { assert |Created(r, Inbound, n.callIds[0], n.froms[0].value, generated).legs| > |r.legs| by { MoreLegs(r, n, generated); } }
  }

  lemma MoreLegs(r: Registry, n: Note, generated: string)
    requires Opens(n) && n.froms[0].Some?
    ensures |Created(r, Inbound, n.callIds[0], n.froms[0].value, generated).legs| == |r.legs| + 1
  {
  }

  /** When a response is malformed, not found, without a leg, or found with its leg. */
  lemma ResponseVerdict(r: Registry, n: Note)
    ensures var o := LegFor(r, n); var headed := |n.callIds| == |n.froms| == 1;
      && (o == Malformed <==> !headed)
      && (o == Unled <==> headed && n.froms[0] == None)
      && (o == NotFound <==> headed && n.froms[0].Some? && !Registered(r, n.callIds[0], n.froms[0].value))
      && (o.Found? ==> Registered(r, n.callIds[0], n.froms[0].value) && o.leg == LegAt(r, n.callIds[0], n.froms[0].value))
  {
  }

  /** What a response does to the registry. Where it leads to a leg and has a To tag, that leg
      has it from then on, whatever its direction, and all else is as it was; where it leads
      nowhere or has no To tag, nothing changes. */
  lemma ResponseTells(r: Registry, n: Note)
    requires WellFormed(r) && (Leads(r, n) ==> n.tos != [])
    ensures OnResponse(r, n).0.tags == r.tags && |OnResponse(r, n).0.legs| == |r.legs|
    ensures (Leads(r, n) && n.tos[0].Some? ==>
      var s, k := OnResponse(r, n).0, LegAt(r, n.callIds[0], n.froms[0].value);
      && OnResponse(r, n).1 == Found(k) && k < |r.legs| && s.legs[k].toTag == n.tos[0].value
      && s.legs[k].direction == r.legs[k].direction && s.legs[k].callId == r.legs[k].callId && s.legs[k].fromTag == r.legs[k].fromTag
      && forall j :: 0 <= j < |r.legs| && j != k ==> s.legs[j] == r.legs[j])
    ensures !Leads(r, n) || n.tos[0] == None ==> OnResponse(r, n).0 == r
  {
    if Leads(r, n) { assert Registered(r, n.callIds[0], n.froms[0].value); }
  }

  // -------------------------------------------------------------------------- runs

  datatype Event =
    | Creation(direction: Direction, callId: string, fromTag: string, toTag: string)
    | Request(note: Note, generated: string)
    | Response(note: Note)

  /** What the steps need: buffers that are filled without a bound, headers that are read
      without a check, and generated tags that are new to their Call-ID. */
  ghost predicate Allowed(r: Registry, e: Event) {
    match e
    case Creation(d, c, f, t) => |c| < 150
    case Request(n, g) => Opens(n) ==> n.froms[0].Some? && |g| <= 14 && !Registered(r, n.callIds[0], g)
    case Response(n) =>
      && (|n.callIds| == |n.froms| == 1 ==> n.froms[0].Some?)
      && (Leads(r, n) ==> n.tos != [] && (n.tos[0].Some? ==> |n.tos[0].value| <= 14))
  }

  /** A leg whose tag fits or whose place is taken, and a response that is for a leg of our
      own making or brings no tag but that of its From header. */
  ghost predicate Proper(r: Registry, e: Event)
    requires WellFormed(r) && Allowed(r, e)
  {
    match e
    case Creation(d, c, f, t) => var tag := if d == Inbound then t else f; |tag| <= 14 || Registered(r, c, tag)
    case Request(n, g) => true
    case Response(n) =>
      Leads(r, n) ==>
        r.legs[LegAt(r, n.callIds[0], n.froms[0].value)].direction == Outbound || n.tos[0] == None || n.tos[0] == n.froms[0]
  }

  ghost function Next(r: Registry, e: Event): Registry
    requires WellFormed(r) && Allowed(r, e)
  {
    match e
    case Creation(d, c, f, t) => Created(r, d, c, f, t)
    case Request(n, g) => OnRequest(r, n, g, true).0
    case Response(n) => OnResponse(r, n).0
  }

  lemma ResponseKeeps(r: Registry, n: Note)
    requires WellFormed(r) && Allowed(r, Response(n))
    ensures WellFormed(OnResponse(r, n).0) && Extends(r, OnResponse(r, n).0)
    ensures Keyed(r) ==> (Keyed(OnResponse(r, n).0) <==> Proper(r, Response(n)))
  {
    var s := OnResponse(r, n).0;
    forall c, t ensures Registered(s, c, t) == Registered(r, c, t) {}
    forall c, t | Registered(r, c, t) ensures LegAt(s, c, t) == LegAt(r, c, t) {}
    if Keyed(r) && OnResponse(r, n).1.Found? {
      var c, t := n.callIds[0], n.froms[0].value;
      assert LocalTag(r.legs[LegAt(r, c, t)]) == t && Registered(s, c, t);
    }
  }

  /** One step keeps the registry well formed, and moves nothing. The keys stay local
      tags exactly when the step is proper. */
  lemma StepKeeps(r: Registry, e: Event)
    requires WellFormed(r) && Allowed(r, e)
    ensures WellFormed(Next(r, e)) && Extends(r, Next(r, e))
    ensures Keyed(r) ==> (Keyed(Next(r, e)) <==> Proper(r, e))
  {
    hide WellFormed, Keyed, Extends, Registered, Add;
    match e
    case Creation(d, c, f, t) =>
      AddKeeps(r, Leg(d, c, Cut(f, 14), Cut(t, 14)), c, if d == Inbound then t else f);
    case Request(n, g) =>
      if Opens(n) {
        AddKeeps(r, Leg(Inbound, n.callIds[0], Cut(n.froms[0].value, 14), Cut(g, 14)), n.callIds[0], g);
      }
      Unmoved(r);
    case Response(n) => ResponseKeeps(r, n);
  }

  lemma Unmoved(r: Registry)
    ensures Extends(r, r)
  {
  }

  const START: Registry := Registry(map[], [])

  ghost predicate AllowedRun(r: Registry, es: seq<Event>)
    requires WellFormed(r)
    decreases |es|
  {
    es == [] || (Allowed(r, es[0]) && (StepKeeps(r, es[0]); AllowedRun(Next(r, es[0]), es[1..])))
  }

  ghost function Last(r: Registry, es: seq<Event>): Registry
    requires WellFormed(r) && AllowedRun(r, es)
    decreases |es|
  {
    if es == [] then r else
      StepKeeps(r, es[0]);
      Last(Next(r, es[0]), es[1..])
  }

  ghost predicate ProperRun(r: Registry, es: seq<Event>)
    requires WellFormed(r) && AllowedRun(r, es)
    decreases |es|
  {
    es == [] || (Proper(r, es[0]) && (StepKeeps(r, es[0]); ProperRun(Next(r, es[0]), es[1..])))
  }

  lemma StartOk()
    ensures WellFormed(START) && Keyed(START)
  {
  }

  lemma ExtendsOn(r: Registry, s: Registry, t: Registry)
    requires Extends(r, s) && Extends(s, t)
    ensures Extends(r, t)
  {
  }

  /** Over any run: the registry stays well formed, a registered pair of Call-ID and tag
      never changes its leg, and while the events are proper each key is the local tag of
      its leg. */
  lemma {:induction false} RunKeeps(r: Registry, es: seq<Event>)
    requires WellFormed(r) && AllowedRun(r, es)
    ensures WellFormed(Last(r, es)) && Extends(r, Last(r, es))
    ensures Keyed(r) && ProperRun(r, es) ==> Keyed(Last(r, es))
    decreases |es|
  {
    hide WellFormed, Keyed, Extends, Proper, Allowed, Next;
    if es == [] {
      Unmoved(r);
    } else {
      StepKeeps(r, es[0]);
      RunKeeps(Next(r, es[0]), es[1..]);
      ExtendsOn(r, Next(r, es[0]), Last(Next(r, es[0]), es[1..]));
    }
  }

  /** What a run has come to after some of its events. */
  ghost predicate KeyedAfter(r: Registry, es: seq<Event>)
    requires WellFormed(r)
  {
    AllowedRun(r, es) && WellFormed(Last(r, es)) && Keyed(Last(r, es))
  }

  /** Each key is the local tag of its leg all through a run exactly if each of its events
      is proper. */
  lemma {:induction false} RunKeyed(r: Registry, es: seq<Event>)
    requires WellFormed(r) && Keyed(r) && AllowedRun(r, es)
    ensures (forall k :: 0 <= k <= |es| ==> KeyedAfter(r, es[..k])) <==> ProperRun(r, es)
    decreases |es|
  {
    hide WellFormed, Keyed, Extends, Proper, Allowed, Next;
    assert KeyedAfter(r, es[..0]);
    if es != [] {
      StepKeeps(r, es[0]);
      var s, rest := Next(r, es[0]), es[1..];
      if Keyed(s) {
        RunKeyed(s, rest);
        forall k | 0 <= k <= |rest| ensures KeyedAfter(r, es[..k + 1]) == KeyedAfter(s, rest[..k]) { KeyedNext(r, es, k); }
        if forall k :: 0 <= k <= |es| ==> KeyedAfter(r, es[..k]) {
          forall k | 0 <= k <= |rest| ensures KeyedAfter(s, rest[..k]) { assert KeyedAfter(r, es[..k + 1]); }
        }
        if ProperRun(r, es) {
          forall k | 0 <= k <= |es| ensures KeyedAfter(r, es[..k]) {
            if k > 0 { assert KeyedAfter(s, rest[..k - 1]); }
          }
        }
      } else {
        KeyedNext(r, es, 0);
        assert !KeyedAfter(s, rest[..0]);
        assert !KeyedAfter(r, es[..1]);
      }
    }
  }

  lemma KeyedNext(r: Registry, es: seq<Event>, k: nat)
    requires WellFormed(r) && es != [] && Allowed(r, es[0]) && WellFormed(Next(r, es[0])) && k < |es|
    ensures KeyedAfter(r, es[..k + 1]) == KeyedAfter(Next(r, es[0]), es[1..][..k])
  {
    hide WellFormed, Keyed, Allowed, Next;
    assert es[..k + 1][1..] == es[1..][..k] && es[..k + 1][0] == es[0];
  }

  /** A request, after any run, resolves to the leg that its To tag was registered for at
      any point of it, and changes nothing. */
  lemma KnownTagFound(r: Registry, es: seq<Event>, n: Note, generated: string)
    requires WellFormed(r) && AllowedRun(r, es)
    requires |n.callIds| == |n.tos| == 1 && n.tos[0].Some?
    requires Registered(r, n.callIds[0], n.tos[0].value)
    ensures OnRequest(Last(r, es), n, generated, true) == (Last(r, es), Found(LegAt(r, n.callIds[0], n.tos[0].value)))
  {
    RunKeeps(r, es);
  }

  /** A To tag that is not registered adds nothing and is answered with 481. */
  lemma UnknownTagRefused(r: Registry, n: Note, generated: string)
    requires |n.callIds| == |n.tos| == 1 && n.tos[0].Some?
    requires !Registered(r, n.callIds[0], n.tos[0].value)
    ensures OnRequest(r, n, generated, true) == (r, NotFound)
  {
  }

  /** A request that opens a dialog: exactly one leg is added, under the generated tag,
      and whatever happens then a request with that tag finds it. */
  lemma NewLegFound(r: Registry, n: Note, generated: string, es: seq<Event>, later: Note)
    requires WellFormed(r) && Allowed(r, Request(n, generated))
    requires Opens(n)
    ensures var s := Next(r, Request(n, generated));
      && WellFormed(s) && |s.legs| == |r.legs| + 1 && s.legs[..|r.legs|] == r.legs
      && s.legs[|r.legs|] == Leg(Inbound, n.callIds[0], Cut(n.froms[0].value, 14), generated)
      && (forall c, t :: Registered(s, c, t) <==> Registered(r, c, t) || (c == n.callIds[0] && t == generated))
      && (AllowedRun(s, es) && later.callIds == n.callIds && later.tos == [Some(generated)] ==>
            OnRequest(Last(s, es), later, "", true).1 == Found(|r.legs|))
  {
    hide WellFormed;
    var e := Request(n, generated);
    StepKeeps(r, e);
    var s := Next(r, e);
    var l := Leg(Inbound, n.callIds[0], Cut(n.froms[0].value, 14), Cut(generated, 14));
    AddKeeps(r, l, n.callIds[0], generated);
    if AllowedRun(s, es) && later.callIds == n.callIds && later.tos == [Some(generated)] {
      KnownTagFound(s, es, later, "");
    }
  }

  lemma RunOfTwo(r: Registry, e: Event, f: Event)
    requires WellFormed(r) && Allowed(r, e) && WellFormed(Next(r, e)) && Allowed(Next(r, e), f) && WellFormed(Next(Next(r, e), f))
    ensures AllowedRun(r, [e, f]) && Last(r, [e, f]) == Next(Next(r, e), f)
  {
    hide WellFormed, Allowed, Next;
    assert [e, f][1..] == [f] && [f][1..] == [];
    assert AllowedRun(Next(Next(r, e), f), []);
    assert AllowedRun(Next(r, e), [f]);
    assert Last(Next(Next(r, e), f), []) == Next(Next(r, e), f);
    assert Last(Next(r, e), [f]) == Next(Next(r, e), f);
  }

  /** A key can stop being the local tag of its leg: an inbound leg is opened under the
      tag b, and a response from b to c finds it. */
  lemma KeyLost()
    ensures var es := [Request(Note(["i"], [None], [Some("a")]), "b"), Response(Note(["i"], [Some("c")], [Some("b")]))];
      WellFormed(START) && AllowedRun(START, es) && WellFormed(Last(START, es)) && !Keyed(Last(START, es))
  {
    var e := Request(Note(["i"], [None], [Some("a")]), "b");
    var f := Response(Note(["i"], [Some("c")], [Some("b")]));
    var r := Next(START, e);
    StartOk();
    StepKeeps(START, e);
    assert Registered(r, "i", "b") && LegAt(r, "i", "b") == 0 && r.legs[0] == Leg(Inbound, "i", "a", "b");
    StepKeeps(r, f);
    assert !Proper(r, f);
    assert [e, f][1..] == [f] && [f][1..] == [];
    StepKeeps(r, f);
    RunOfTwo(START, e, f);
  }
}
