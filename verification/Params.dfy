/** Parameter lists (src/sip_headers.cpp): linked records that parsing builds, that
    appending edits in place and that cloning copies. */
module Params {
  import opened Tokens
  import opened SipTables
  import opened HeaderText
  import HeaderReads

  class Parameter {
    var name: string
    var value: string
    var next: Parameter?

    /** sipster_sip_parameter_create: both texts are cut to their buffers. */
    constructor (key: string, val: string)
      ensures name == Cut(key, 19) && value == Cut(val, 29) && next == null
    {
      name, value, next := Cut(key, 19), Cut(val, 29), null;
    }

    /** sipster_sip_parameter_clone: the copy still points to the original's successor. */
    constructor Clone(p: Parameter)
      ensures name == p.name && value == p.value && next == p.next
    {
      name, value, next := p.name, p.value, p.next;
    }

    ghost function Pair(): Param
      reads this
    {
      Param(name, value)
    }
  }

  ghost function Follower(ps: seq<Parameter>, i: nat): Parameter?
    requires i < |ps|
  {
    if i + 1 < |ps| then ps[i + 1] else null
  }

  ghost function First(ps: seq<Parameter>): Parameter? {
    if ps == [] then null else ps[0]
  }

  ghost predicate AllDistinct(ps: seq<Parameter>) {
    forall i, j :: 0 <= i < j < |ps| ==> ps[i] != ps[j]
  }

  /** `ps` are linked one behind the other, starting at `first`. */
  ghost predicate Segment(first: Parameter?, ps: seq<Parameter>)
    reads ps
  {
    && first == First(ps) && AllDistinct(ps)
    && forall i :: 0 <= i < |ps| - 1 ==> ps[i].next == Follower(ps, i)
  }

  /** `ps` are the records of the list that starts at `first`, in order. */
  ghost predicate Chain(first: Parameter?, ps: seq<Parameter>)
    reads ps
  {
    Segment(first, ps) && (ps != [] ==> ps[|ps| - 1].next == null)
  }

  lemma NextInChain(first: Parameter?, ps: seq<Parameter>, i: nat)
    requires Chain(first, ps) && i < |ps|
    ensures ps[i].next == Follower(ps, i)
  {
  }

  ghost function Contents(ps: seq<Parameter>): (r: seq<Param>)
    reads ps
    ensures |r| == |ps| && forall i :: 0 <= i < |ps| ==> r[i] == ps[i].Pair()
  {
    seq(|ps|, i requires 0 <= i < |ps| reads ps => ps[i].Pair())
  }

  // -------------------------------------------------------- what the edits amount to

  /** The place of the first parameter with a name, or the length. */
  function Place(ps: seq<Param>, name: string): (i: nat)
    ensures i <= |ps| && (i < |ps| ==> ps[i].name == name)
    ensures forall j :: 0 <= j < i ==> ps[j].name != name
  {
    if ps == [] || ps[0].name == name then 0 else 1 + Place(ps[1..], name)
  }

  /** An equal name is replaced where it stands, a new one is put at the end. */
  function Put(ps: seq<Param>, p: Param): seq<Param> {
    var i := Place(ps, p.name);
    if i < |ps| then ps[i := p] else ps + [p]
  }

  predicate DistinctNames(ps: seq<Param>) {
    forall i, j :: 0 <= i < j < |ps| ==> ps[i].name != ps[j].name
  }

  function Find(ps: seq<Param>, name: string): Option<string> {
    var i := Place(ps, name);
    if i < |ps| then Some(ps[i].value) else None
  }

  /** Putting keeps names distinct, is seen by looking the name up and by no other
      lookup, and moves nothing. */
  lemma PutMeans(ps: seq<Param>, p: Param, other: string)
    ensures DistinctNames(ps) ==> DistinctNames(Put(ps, p))
    ensures Find(Put(ps, p), p.name) == Some(p.value)
    ensures other != p.name ==> Find(Put(ps, p), other) == Find(ps, other)
    ensures |Put(ps, p)| == if Find(ps, p.name).Some? then |ps| else |ps| + 1
    ensures forall i :: 0 <= i < |ps| && ps[i].name != p.name ==> Put(ps, p)[i] == ps[i]
  {
    if other != p.name { PlaceKept(ps, p, other); }
    PlaceOwn(ps, p);
  }

  lemma PlaceOwn(ps: seq<Param>, p: Param)
    ensures Place(Put(ps, p), p.name) == Place(ps, p.name)
  {
    var i, q := Place(ps, p.name), Put(ps, p);
    assert q[i] == p;
    assert forall j :: 0 <= j < i ==> q[j] == ps[j];
  }

  lemma PlaceKept(ps: seq<Param>, p: Param, other: string)
    requires other != p.name
    ensures var k := Place(ps, other);
      Place(Put(ps, p), other) == if k < |ps| then k else |Put(ps, p)|
  {
    var k, q := Place(ps, other), Put(ps, p);
    assert forall j :: 0 <= j < |ps| ==> q[j] == ps[j] || q[j] == p;
    assert k < |ps| ==> q[k] == ps[k];
  }

  /** The first parameter whose name begins with `name`, or the length. */
  function PlacePrefix(ps: seq<Param>, name: string): (i: nat)
    ensures i <= |ps| && (i < |ps| ==> name <= ps[i].name)
    ensures forall j :: 0 <= j < i ==> !(name <= ps[j].name)
  {
    if ps == [] || name <= ps[0].name then 0 else 1 + PlacePrefix(ps[1..], name)
  }

  /** No parameter before the one with a name has a name that begins with it. */
  predicate Clear(ps: seq<Param>, name: string) {
    forall i :: 0 <= i < Place(ps, name) ==> !(name <= ps[i].name)
  }

  /** A lookup by prefix finds the parameter of the name itself, or that there is none,
      exactly if no earlier name begins with it. */
  lemma PrefixExact(ps: seq<Param>, name: string)
    ensures PlacePrefix(ps, name) == Place(ps, name) <==> Clear(ps, name)
    ensures PlacePrefix(ps, name) <= Place(ps, name)
    ensures Find(ps, name) == None ==> (PlacePrefix(ps, name) < |ps| <==> exists i :: 0 <= i < |ps| && name <= ps[i].name)
  {
    var i, k := PlacePrefix(ps, name), Place(ps, name);
    if i < |ps| { assert name <= ps[i].name; }
    if k < |ps| { assert name <= ps[k].name; }
  }

  // -------------------------------------------------------------------- operations

  /** sipster_sip_parameter_get, which compares only as many characters as it is given. */
  method ParameterGet(name: string, first: Parameter?, ghost ps: seq<Parameter>) returns (p: Parameter?)
    requires Chain(first, ps)
    ensures (var i := PlacePrefix(Contents(ps), name); p == if i < |ps| then ps[i] else null)
  {
    hide Segment, Contents;
    var current := first;
    ghost var i := 0;
    ChainFirst(first, ps);
    PairsOf(ps);
    while current != null
      invariant i <= |ps| && current == if i < |ps| then ps[i] else null
      invariant forall j :: 0 <= j < i ==> !(name <= Contents(ps)[j].name)
      decreases |ps| - i
    {
      NextInChain(first, ps, i);
      if name <= current.name {
        return current;
      }
      current := current.next;
      i := i + 1;
    }
    p := null;
  }

  /** `prev->next = next` at the end of a list. */
  method Hang(first: Parameter?, prev: Parameter, next: Parameter, ghost ps: seq<Parameter>)
    requires |ps| > 0 && prev == ps[|ps| - 1] && Segment(first, ps) && next !in ps
    modifies prev`next
    ensures Segment(first, ps + [next]) && Contents(ps + [next]) == old(Contents(ps)) + [next.Pair()]
    ensures next.Pair() == old(next.Pair()) && next.next == old(next.next)
  {
    prev.next := next;
  }

  /** A parameter text, as a record at the end of a list. */
  method HangParam(first: Parameter?, prev: Parameter, param: string, ghost ps: seq<Parameter>) returns (next: Parameter)
    requires |ps| > 0 && prev == ps[|ps| - 1] && Segment(first, ps)
    modifies prev`next
    ensures fresh(next) && next.next == null
    ensures Segment(first, ps + [next]) && Contents(ps + [next]) == old(Contents(ps)) + [ParamOf(param)]
  {
    hide Segment, Contents, ParamOf;
    next := ParseParam(param);
    assert next !in ps;
    Hang(first, prev, next, ps);
  }

  /** parse_header_params: each record is hung behind the previous one. */
  method ParseParams(input: string, pos: Cursor) returns (first: Parameter?, pos': Cursor, ghost ps: seq<Parameter>)
    ensures Chain(first, ps) && fresh(ps) && Contents(ps) == ParamsOf(Left(input, pos)) && HeaderReads.ReadAs(Left(input, pos), Contents(ps))
  {
    HeaderReads.ParamsReadAs(Left(input, pos));
    hide HeaderReads.ReadAs, Tok, Skip, After, Left, Segment, Contents, ParamOf, ParamsOf;
    ghost var rest := Left(input, pos);
    ghost var all := ParamsOf(rest);
    first, ps, pos' := null, [], pos;
    NoRecord();
    ParamsStep(rest);
    LeftAfter(input, ";", pos');
    var param;
    param, pos' := NextToken(input, ";", pos');
    if param != "" {
      var prev := ParseParam(param);
      first, ps := prev, [prev];
      OneRecord(prev);
      rest := Skip(rest, ";");
      ParamsStep(rest);
      LeftAfter(input, ";", pos');
      param, pos' := NextToken(input, ";", pos');
      while param != ""
        invariant fresh(ps) && |ps| > 0 && prev == ps[|ps| - 1] && prev.next == null && Segment(first, ps)
        invariant param == Tok(rest, ";") && Left(input, pos') == Skip(rest, ";")
        invariant all == Contents(ps) + ParamsOf(rest)
        decreases |rest|
      {
        ParamsStep(rest);
        Assoc(Contents(ps), ParamOf(param), ParamsOf(Skip(rest, ";")));
        var next := HangParam(first, prev, param, ps);
        ps := ps + [next];
        prev := next;
        rest := Skip(rest, ";");
        LeftAfter(input, ";", pos');
        param, pos' := NextToken(input, ";", pos');
      }
      ParamsStep(rest);
    }
  }

  lemma Assoc(a: seq<Param>, x: Param, b: seq<Param>)
    ensures a + ([x] + b) == (a + [x]) + b
  {
  }

  lemma OneRecord(p: Parameter)
    ensures Segment(p, [p]) && Contents([p]) == [p.Pair()]
  {
  }

  lemma NoRecord()
    ensures Segment(null, []) && Contents([]) == []
  {
  }

  lemma ParamsStep(r: string)
    ensures Tok(r, ";") != "" ==>
      |Skip(r, ";")| < |r| && ParamsOf(r) == [ParamOf(Tok(r, ";"))] + ParamsOf(Skip(r, ";"))
    ensures Tok(r, ";") == "" ==> ParamsOf(r) == []
  {
    hide Tok, Skip, ParamOf;
  }

  method ParseParam(param: string) returns (p: Parameter)
    ensures fresh(p) && p.Pair() == ParamOf(param) && p.next == null
    ensures forall w :: HeaderReads.Clean(w) && param == HeaderReads.WrittenText(w) ==> p.Pair() == HeaderReads.Meaning(w)
  {
    forall w | HeaderReads.Clean(w) && param == HeaderReads.WrittenText(w) ensures ParamOf(param) == HeaderReads.Meaning(w) {
      HeaderReads.WrittenRead(w);
    }
    hide HeaderReads.Clean, HeaderReads.WrittenText, HeaderReads.Meaning;
    var ppos := At(0);
    var key, val;
    LeftAfter(param, "=", ppos);
    assert Left(param, ppos) == param;
    key, ppos := NextToken(param, "=", ppos);
    val, ppos := NextToken(param, "=", ppos);
    p := new Parameter(key, val);
  }

  /** The loop that the three printers share. */
  method PrintParams(first: Parameter?, ghost ps: seq<Parameter>) returns (params: string)
    requires Chain(first, ps)
    ensures params == ParamsText(Contents(ps))
  {
    hide ParamsText, Contents;
    params := "";
    var param := first;
    ghost var i, all := 0, Contents(ps);
    PairsOf(ps);
    ChainFirst(first, ps);
    assert all[0..] == all;
    while param != null
      invariant i <= |ps| && param == if i < |ps| then ps[i] else null
      invariant params + ParamsText(all[i..]) == ParamsText(all)
      decreases |ps| - i
    {
      NextInChain(first, ps, i);
      PairAt(ps, i);
      TextStep(params, all, i);
      params := params + ";" + param.name + "=" + param.value;
      param := param.next;
      i := i + 1;
    }
    TextEnd(all);
  }

  lemma TextStep(text: string, all: seq<Param>, i: nat)
    requires i < |all|
    ensures text + ParamsText(all[i..]) == text + ";" + all[i].name + "=" + all[i].value + ParamsText(all[i + 1..])
  {
    assert all[i..][1..] == all[i + 1..];
  }

  lemma TextEnd(all: seq<Param>)
    ensures ParamsText(all[|all|..]) == ""
  {
  }

  /** sipster_sip_parameters_clone: a list of its own with the same contents. */
  method ParametersClone(first: Parameter?, ghost ps: seq<Parameter>) returns (newFirst: Parameter?, ghost qs: seq<Parameter>)
    requires Chain(first, ps)
    ensures Chain(newFirst, qs) && fresh(qs) && Contents(qs) == Contents(ps)
  {
    hide Segment, Contents;
    newFirst, qs := null, [];
    NoRecord();
    ChainFirst(first, ps);
    var newLast: Parameter? := null;
    var current := first;
    ghost var i := 0;
    while current != null
      invariant Chain(first, ps) && i <= |ps| && current == if i < |ps| then ps[i] else null
      invariant |qs| == i && fresh(qs) && Segment(newFirst, qs) && newFirst == First(qs)
      invariant newLast == if i == 0 then null else qs[i - 1]
      invariant i > 0 ==> newLast.next == Follower(ps, i - 1)
      invariant Contents(qs) == Contents(ps)[..i]
      decreases |ps| - i
    {
      NextInChain(first, ps, i);
      var copy := new Parameter.Clone(current);
      assert copy !in qs && copy.Pair() == ps[i].Pair();
      PairAt(ps, i);
      if newLast != null {
        Hang(newFirst, newLast, copy, qs);
      } else {
        OneRecord(copy);
        assert qs + [copy] == [copy];
      }
      newLast := copy;
      qs := qs + [copy];
      if newFirst == null {
        newFirst := newLast;
      }
      current := current.next;
      i := i + 1;
    }
    PairsOf(ps);
  }

  lemma PairAt(ps: seq<Parameter>, i: nat)
    requires i < |ps|
    ensures |Contents(ps)| == |ps| && Contents(ps)[i] == ps[i].Pair()
    ensures Contents(ps)[..i + 1] == Contents(ps)[..i] + [ps[i].Pair()]
  {
  }

  lemma PairsOf(ps: seq<Parameter>)
    ensures |Contents(ps)| == |ps| && Contents(ps)[..|ps|] == Contents(ps)
    ensures forall i :: 0 <= i < |ps| ==> Contents(ps)[i] == ps[i].Pair()
  {
  }

  /** `param` takes the place of the record after `p`. */
  method ReplaceNext(first: Parameter?, p: Parameter, q: Parameter, param: Parameter, ghost ps: seq<Parameter>, ghost i: nat)
    requires Chain(first, ps) && i + 1 < |ps| && p == ps[i] && q == ps[i + 1] && param !in ps
    modifies p`next, param`next
    ensures Chain(first, ps[i + 1 := param])
    ensures Contents(ps[i + 1 := param]) == old(Contents(ps))[i + 1 := old(param.Pair())]
  {
    hide Contents;
    PairsOf(ps);
    p.next := param;
    param.next := q.next;
    PairsKept(ps, old(Contents(ps)));
    Relinked(first, ps, param, i);
  }

  lemma PairsKept(ps: seq<Parameter>, was: seq<Param>)
    requires |was| == |ps| && forall j :: 0 <= j < |ps| ==> was[j] == ps[j].Pair()
    ensures Contents(ps) == was
  {
  }

  /** A list whose record `i` has been led past its successor to `param`. */
  lemma Relinked(first: Parameter?, ps: seq<Parameter>, param: Parameter, i: nat)
    requires i + 1 < |ps| && first == First(ps) && AllDistinct(ps) && param !in ps
    requires forall j :: 0 <= j < |ps| && j != i ==> ps[j].next == Follower(ps, j)
    requires ps[i].next == param && param.next == ps[i + 1].next
    ensures Chain(first, ps[i + 1 := param]) && Contents(ps[i + 1 := param]) == Contents(ps)[i + 1 := param.Pair()]
  {
    var qs := ps[i + 1 := param];
    forall j | 0 <= j < |qs| ensures qs[j].next == Follower(qs, j) {
      assert j != i && j != i + 1 ==> qs[j] == ps[j];
    }
  }

  /** What appending makes of a list: the record takes the place of the one with its name, or
      comes at the end together with what it leads to. */
  function PutBefore(ps: seq<Param>, p: Param, tail: seq<Param>): seq<Param> {
    var i := Place(ps, p.name);
    if i < |ps| then ps[i := p] else ps + [p] + tail
  }

  lemma PutAlone(ps: seq<Param>, p: Param)
    ensures PutBefore(ps, p, []) == Put(ps, p)
  {
    assert ps + [p] + [] == ps + [p];
  }

  /** A segment and the list that its last record leads to. */
  lemma Joined(first: Parameter?, ps: seq<Parameter>, tail: seq<Parameter>)
    requires Segment(first, ps) && ps != [] && Chain(ps[|ps| - 1].next, tail) && forall p <- tail :: p !in ps
    ensures Chain(first, ps + tail) && Contents(ps + tail) == Contents(ps) + Contents(tail)
  {
    var qs := ps + tail;
    forall i, j | 0 <= i < j < |qs| ensures qs[i] != qs[j] {
      if i < |ps| <= j { assert qs[j] == tail[j - |ps|] && qs[j] in tail && qs[i] in ps; }
    }
    forall i | 0 <= i < |qs| - 1 ensures qs[i].next == Follower(qs, i) {
      if i >= |ps| { assert qs[i] == tail[i - |ps|] && tail[i - |ps|].next == Follower(tail, i - |ps|); }
    }
    assert Segment(first, qs);
    if tail != [] { assert tail[|tail| - 1] == qs[|qs| - 1]; } else { assert qs == ps; }
  }

  /** A record with what it leads to, at the end of a list. */
  method HangTail(first: Parameter?, prev: Parameter, next: Parameter, ghost ps: seq<Parameter>, ghost tail: seq<Parameter>)
    requires Chain(first, ps) && ps != [] && prev == ps[|ps| - 1] && next !in ps
    requires Chain(next.next, tail) && next !in tail && forall p <- tail :: p !in ps
    modifies prev`next
    ensures Chain(first, ps + [next] + tail)
    ensures Contents(ps + [next] + tail) == old(Contents(ps)) + [old(next.Pair())] + old(Contents(tail))
  {
    hide Contents;
    ghost var after := Contents(tail);
    PairsOf(tail);
    assert prev in ps && prev !in tail;
    Hang(first, prev, next, ps);
    assert (ps + [next])[|ps|] == next && forall p <- tail :: p !in ps + [next];
    PairsKept(tail, after);
    Joined(first, ps + [next], tail);
  }

  /** sipster_sip_header_append_parameter on the list of a header. What the record leads to,
      `tail`, is kept where its name is new and dropped where it takes another's place. */
  method Append(first: Parameter?, param: Parameter, ghost ps: seq<Parameter>, ghost tail: seq<Parameter>)
    returns (newFirst: Parameter?, ghost qs: seq<Parameter>)
    requires Chain(first, ps) && param !in ps && Chain(param.next, tail) && param !in tail && forall p <- tail :: p !in ps
    modifies ps, param`next
    ensures Chain(newFirst, qs) && Contents(qs) == PutBefore(old(Contents(ps)), old(param.Pair()), old(Contents(tail)))
    ensures (var i := Place(old(Contents(ps)), param.name);
      qs == if i < |ps| then ps[i := param] else ps + [param] + tail)
    ensures forall p <- ps :: p.Pair() == old(p.Pair())
  {
    hide Segment, Contents, Place, Chain;
    ghost var was, pair, after := Contents(ps), param.Pair(), Contents(tail);
    PairsOf(ps);
    ghost var k := Place(was, param.name);
    newFirst := first;
    var p := first;
    if p == null {
      newFirst := param;
      qs := [] + [param] + tail;
      OneRecord(param);
      assert ps == [] by { ChainFirst(first, ps); }
      Joined(param, [param], tail);
      assert qs == [param] + tail && was + [pair] + after == [pair] + after;
      return;
    }
    ChainFirst(first, ps);
    if p.name == param.name {
      newFirst := param;
      param.next := p.next;
      qs := ps[0 := param];
      FirstPlace(ps, param.name, 0);
      ReplacedFirst(first, ps, param);
      return;
    }
    ghost var i := 0;
    NotPlace(ps, param.name, 0);
    while true
      invariant i < |ps| && p == ps[i] && i < k
      invariant Chain(first, ps) && Contents(ps) == was && Chain(param.next, tail) && Contents(tail) == after && param.Pair() == pair
      decreases |ps| - i
    {
      NextInChain(first, ps, i);
      var q := p.next;
      if q != null {
        if q.name == param.name {
          FirstPlace(ps, param.name, i + 1);
          ReplaceNext(first, p, q, param, ps, i);
          qs := ps[i + 1 := param];
          break;
        }
        NotPlace(ps, param.name, i + 1);
        p := q;
        i := i + 1;
      } else {
        HangTail(first, p, param, ps, tail);
        qs := ps + [param] + tail;
        break;
      }
    }
  }

  /** The list that a record inside a list leads to. */
  lemma LastPart(first: Parameter?, qs: seq<Parameter>, k: nat)
    requires Chain(first, qs) && k < |qs|
    ensures Chain(qs[k].next, qs[k + 1..]) && qs[k] !in qs[k + 1..]
    ensures Contents(qs[k + 1..]) == Contents(qs)[k + 1..] && Contents(qs[..k]) == Contents(qs)[..k]
  {
    var tail := qs[k + 1..];
    assert qs[k].next == Follower(qs, k);
    forall i | 0 <= i < |tail| - 1 ensures tail[i].next == Follower(tail, i) { assert qs[k + 1 + i].next == Follower(qs, k + 1 + i); }
    if tail != [] { assert tail[|tail| - 1] == qs[|qs| - 1]; }
    forall j | 0 <= j < |tail| ensures tail[j] != qs[k] { assert tail[j] == qs[k + 1 + j]; }
  }

  lemma ChainFirst(first: Parameter?, ps: seq<Parameter>)
    requires Chain(first, ps)
    ensures first == First(ps)
  {
  }

  lemma FirstPlace(ps: seq<Parameter>, name: string, i: nat)
    requires i < |ps| && ps[i].name == name && i <= Place(Contents(ps), name)
    ensures Place(Contents(ps), name) == i
  {
  }

  lemma NotPlace(ps: seq<Parameter>, name: string, i: nat)
    requires i < |ps| && ps[i].name != name && i <= Place(Contents(ps), name)
    ensures Place(Contents(ps), name) > i
  {
  }

  lemma ReplacedFirst(first: Parameter?, ps: seq<Parameter>, param: Parameter)
    requires Chain(first, ps) && first != null && param !in ps && param.next == first.next
    ensures Chain(param, ps[0 := param]) && Contents(ps[0 := param]) == Contents(ps)[0 := param.Pair()]
  {
  }
}
