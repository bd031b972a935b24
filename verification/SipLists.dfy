/** Header lists (src/sip_headers.cpp): leaves that point to headers and share the count
    of the list, and the search that copies the matching leaves. */
module SipLists {
  import opened SipTables
  import opened HeaderText
  import opened Params
  import opened SipHeaders

  class Metadata {
    var count: nat

    constructor ()
      ensures count == 0
    {
      count := 0;
    }
  }

  class Leaf {
    var metadata: Metadata?
    var index: nat
    var header: SipHeader?
    var next: Leaf?
    /** How many leaves come before it; the index is the same, as far as it reaches. */
    ghost var place: nat

    constructor (metadata: Metadata?, header: SipHeader?)
      ensures this.metadata == metadata && this.header == header && index == 0 && next == null && place == 0
    {
      this.metadata, this.header, index, next, place := metadata, header, 0, null, 0;
    }
  }

  /** sipster_sip_append_new_header: a new leaf behind `leaf`, or the first of a new list.
      The index is an unsigned short. */
  method AppendNewHeader(leaf: Leaf?, header: SipHeader) returns (newLeaf: Leaf)
    requires leaf != null ==> leaf.metadata != null
    modifies if leaf == null then {} else {leaf, leaf.metadata}
    ensures fresh(newLeaf) && newLeaf.header == header && newLeaf.next == null
    ensures leaf == null ==> newLeaf.metadata != null && fresh(newLeaf.metadata) && newLeaf.metadata.count == 1
    ensures leaf == null ==> newLeaf.index == newLeaf.place == 0
    ensures (leaf != null ==>
      && leaf.next == newLeaf && newLeaf.metadata == leaf.metadata == old(leaf.metadata)
      && leaf.metadata.count == old(leaf.metadata.count) + 1 && newLeaf.index == (leaf.index + 1) % 65536
      && newLeaf.place == leaf.place + 1
      && leaf.header == old(leaf.header) && leaf.index == old(leaf.index) && leaf.place == old(leaf.place))
  {
    if leaf == null {
      var metadata := new Metadata();
      newLeaf := new Leaf(metadata, header);
      newLeaf.metadata.count := newLeaf.metadata.count + 1;
    } else {
      newLeaf := new Leaf(leaf.metadata, header);
      leaf.metadata.count := leaf.metadata.count + 1;
      leaf.next := newLeaf;
      newLeaf.index := (leaf.index + 1) % 65536;
      newLeaf.place := leaf.place + 1;
    }
  }

  lemma NextIndex(i: nat)
    ensures (i % 65536 + 1) % 65536 == (i + 1) % 65536
  {
    var q, r := i / 65536, i % 65536;
    assert i == 65536 * q + r && 0 <= r < 65536;
    if r == 65535 { assert i + 1 == 65536 * (q + 1); } else { assert i + 1 == 65536 * q + (r + 1); }
  }

  /** The place of the first header with an identity, or the length. */
  function FirstOf(ids: seq<HeaderId>, id: HeaderId): (i: nat)
    ensures i <= |ids| && (i < |ids| ==> ids[i] == id)
    ensures forall j :: 0 <= j < i ==> ids[j] != id
  {
    if ids == [] || ids[0] == id then 0 else 1 + FirstOf(ids[1..], id)
  }

  function CountOf(ids: seq<HeaderId>, id: HeaderId): nat {
    if ids == [] then 0 else CountOf(ids[..|ids| - 1], id) + if ids[|ids| - 1] == id then 1 else 0
  }

  lemma {:induction false} CountFirst(ids: seq<HeaderId>, id: HeaderId)
    ensures CountOf(ids, id) == 0 <==> FirstOf(ids, id) == |ids|
  {
    if ids != [] {
      var front := ids[..|ids| - 1];
      CountFirst(front, id);
      assert forall j :: 0 <= j < |front| ==> front[j] == ids[j];
    }
  }

  /** The header list of a message. */
  class HeaderList {
    var firstHeader: Leaf?
    var lastHeader: Leaf?
    ghost var leaves: seq<Leaf>
    ghost var headers: seq<SipHeader>
    /** Every parameter of every header. */
    ghost var nodes: set<Parameter>
    /** The count record that the leaves share. */
    ghost var shared: Metadata?

    /** Leaf `i` of the list. */
    ghost predicate LeafOk(i: nat)
      requires |leaves| == |headers| && i < |leaves|
      reads this, leaves
    {
      && leaves[i].header == headers[i] && leaves[i].metadata == shared && shared != null
      && leaves[i].next == (if i + 1 < |leaves| then leaves[i + 1] else null)
      && leaves[i].place == i && leaves[i].index == i % 65536
    }

    /** The leaves from the first on. */
    ghost predicate Linked()
      reads this, leaves, shared
    {
      && |leaves| == |headers|
      && firstHeader == (if leaves == [] then null else leaves[0])
      && (forall i :: 0 <= i < |leaves| ==> LeafOk(i))
      && (leaves != [] ==> LeafOk(0) && shared.count == |leaves|)
    }

    /** The last leaf is the first of a new list. */
    ghost predicate LoneLeaf()
      reads this, lastHeader, if lastHeader == null then null else lastHeader.metadata
    {
      && lastHeader != null && lastHeader.next == null && lastHeader.index == lastHeader.place == 0
      && lastHeader.metadata != null && lastHeader.metadata.count == 1
    }

    /** The last leaf is the end of the list, except that a list without a first leaf may
        have a last one which nothing leads to. */
    ghost predicate Ended()
      reads this, lastHeader
    {
      && (lastHeader != null ==> shared != null && lastHeader.metadata == shared)
      && (leaves != [] ==> lastHeader == leaves[|leaves| - 1])
    }

    ghost predicate Holding()
      reads this, headers, nodes
    {
      && (forall i, j :: 0 <= i < j < |headers| ==> headers[i] != headers[j])
      && forall i :: 0 <= i < |headers| ==> (forall p <- headers[i].params :: p in nodes) && headers[i].Valid()
    }

    ghost predicate Walkable()
      reads this, leaves, shared, headers, nodes, lastHeader
    {
      Linked() && Holding() && Ended()
    }

    ghost predicate Valid()
      reads this, leaves, shared, headers, nodes, lastHeader
    {
      Walkable() && (leaves == [] ==> lastHeader == null)
    }

    ghost function ValuesTo(n: nat): (r: seq<Header>)
      requires n <= |headers| && Holding()
      reads this, headers, nodes
      ensures |r| == n && forall i :: 0 <= i < n ==> r[i] == headers[i].Value()
    {
      if n == 0 then [] else ValuesTo(n - 1) + [headers[n - 1].Value()]
    }

    ghost function Values(): seq<Header>
      requires Holding()
      reads this, headers, nodes
    {
      ValuesTo(|headers|)
    }

    /** The list is well formed and stands for `vs`. */
    ghost predicate Holds(vs: seq<Header>)
      reads this, leaves, shared, headers, nodes, lastHeader
    {
      Valid() && Values() == vs
    }

    /** The same for a list whose last leaf may lead nowhere. */
    ghost predicate Shows(vs: seq<Header>)
      reads this, leaves, shared, headers, nodes, lastHeader
    {
      Walkable() && Values() == vs
    }

    ghost function Ids(): (r: seq<HeaderId>)
      reads this, headers
      ensures |r| == |headers| && forall i :: 0 <= i < |headers| ==> r[i] == headers[i].id
    {
      seq(|headers|, i requires 0 <= i < |headers| reads headers, this => headers[i].id)
    }

    constructor ()
      ensures Holds([]) && headers == [] && leaves == [] && nodes == {} && lastHeader == null && shared == null
    {
      firstHeader, lastHeader, leaves, headers, nodes, shared := null, null, [], [], {}, null;
    }

    /** `last = append(last, header)`. Nothing is gained where there is no first leaf. */
    method AppendLast(header: SipHeader)
      requires Walkable() && header.Valid() && header !in headers
      modifies this`lastHeader, this`leaves, this`headers, this`nodes, this`shared, lastHeader, shared
      ensures Walkable() && lastHeader != null && lastHeader.header == header && lastHeader.next == null
      ensures headers == if old(headers) == [] then [] else old(headers) + [header]
      ensures Values() == if old(headers) == [] then [] else old(Values()) + [header.Value()]
      ensures nodes == if old(headers) == [] then old(nodes) else old(nodes) + (set p | p in header.params)
      ensures leaves == if old(leaves) == [] then [] else old(leaves) + [lastHeader]
      ensures lastHeader.index == if old(lastHeader) == null then 0 else (old(lastHeader.index) + 1) % 65536
      ensures old(lastHeader) == null ==> LoneLeaf()
      ensures fresh(lastHeader) && (shared == old(shared) || fresh(shared))
    {
      hide SipHeader.Valid, SipHeader.Value, Linked;
      ghost var n, was := |headers|, Values();
      LinkedFirst();
      Link(header);
      if n > 0 {
        forall i | 0 <= i < n ensures headers[i].Valid() && headers[i].Value() == was[i] {
          assert headers[i] == old(headers)[i];
          assert old(headers[i].Valid());
        }
        assert Holding();
        assert ValuesTo(n) == was;
      }
    }

    /** The leaves of `AppendLast`. */
    method Link(header: SipHeader)
      requires Linked() && Ended()
      modifies this`lastHeader, this`leaves, this`headers, this`nodes, this`shared, lastHeader, shared
      ensures Linked() && Ended() && lastHeader != null && lastHeader.header == header && lastHeader.next == null
      ensures headers == if old(leaves) == [] then [] else old(headers) + [header]
      ensures nodes == if old(leaves) == [] then old(nodes) else old(nodes) + (set p | p in header.params)
      ensures leaves == if old(leaves) == [] then [] else old(leaves) + [lastHeader]
      ensures lastHeader.index == if old(lastHeader) == null then 0 else (old(lastHeader.index) + 1) % 65536
      ensures old(lastHeader) == null ==> LoneLeaf()
      ensures fresh(lastHeader) && (shared == old(shared) || fresh(shared))
    {
      hide Linked, LeafOk;
      ghost var n, last := |leaves|, lastHeader;
      LinkedFirst();
      if n > 0 { LeafAt(n - 1); }
      lastHeader := AppendNewHeader(lastHeader, header);
      shared := lastHeader.metadata;
      if n > 0 {
        forall i | 0 <= i < n ensures leaves[i] == last || unchanged(leaves[i]) {}
        leaves, headers, nodes := leaves + [lastHeader], headers + [header], nodes + (set p | p in header.params);
        Grown(header);
      } else {
        assert Linked() by { NoLeaves(); }
      }
    }

    lemma NoLeaves()
      requires leaves == [] && headers == [] && firstHeader == null
      ensures Linked()
    {
    }

    /** A list that has been given one more leaf. */
    twostate lemma Grown(header: SipHeader)
      requires old(Linked() && leaves != []) && lastHeader != null
      requires leaves == old(leaves) + [lastHeader] && headers == old(headers) + [header]
      requires firstHeader == old(firstHeader) && shared == old(shared)
      requires var last := old(leaves)[|old(leaves)| - 1];
        && last.next == lastHeader && last.header == old(last.header) && last.metadata == old(last.metadata)
        && last.index == old(last.index) && last.place == old(last.place)
        && lastHeader.index == (last.index + 1) % 65536 && lastHeader.place == last.place + 1
        && forall i :: 0 <= i < |old(leaves)| ==> leaves[i] == last || unchanged(leaves[i])
      requires lastHeader.header == header && lastHeader.next == null && lastHeader.metadata == old(shared)
      requires shared != null && shared.count == old(shared.count) + 1
      ensures Linked()
    {
      assert old(LeafOk(|leaves| - 1));
      forall i | 0 <= i < |leaves| ensures LeafOk(i) {
        if i < |old(leaves)| { assert old(LeafOk(i)); } else { assert old(LeafOk(i - 1)); NextIndex(i - 1); }
      }
    }

    /** The callers' idiom: append behind the last leaf, and make it the first if there was none. */
    method Append(header: SipHeader)
      requires Valid() && header.Valid() && header !in headers
      modifies this, lastHeader, shared
      ensures Valid() && headers == old(headers) + [header] && Values() == old(Values()) + [header.Value()]
      ensures header.Value() == old(header.Value())
      ensures nodes == old(nodes) + (set p | p in header.params)
      ensures fresh(lastHeader) && (shared == old(shared) || fresh(shared))
    {
      hide SipHeader.Valid, SipHeader.Value, Linked, Holding, ValuesTo;
      ghost var was, value := Values(), header.Value();
      LinkedFirst();
      if headers == [] { NoValues(); }
      AppendLast(header);
      LinkedFirst();
      if firstHeader == null {
        firstHeader := lastHeader;
        leaves, headers := [lastHeader], [header];
        nodes := nodes + (set p | p in header.params);
        Lone(header);
        assert [value] == was + [value];
      }
    }

    lemma NoValues()
      requires Holding() && headers == []
      ensures Values() == []
    {
    }

    lemma Lone(header: SipHeader)
      requires leaves == [lastHeader] && headers == [header] && firstHeader == lastHeader && LoneLeaf()
      requires lastHeader.header == header && shared == lastHeader.metadata && header.Valid()
      requires forall p <- header.params :: p in nodes
      ensures Linked() && Holding() && Values() == [header.Value()]
    {
      hide SipHeader.Valid, SipHeader.Value;
      assert LeafOk(0);
      assert ValuesTo(0) == [];
    }

    /** sipster_sip_get_header: the first leaf of a new list of the matching headers, or null. */
    method GetHeader(id: HeaderId) returns (head: Leaf?, ghost copies: seq<Leaf>)
      requires Walkable()
      ensures Walkable()
      ensures head == null <==> CountOf(Ids(), id) == 0
      ensures (head != null ==>
        && fresh(head) && head.metadata != null && FirstOf(Ids(), id) < |headers| && head.header == headers[FirstOf(Ids(), id)]
        && head.metadata.count == CountOf(Ids(), id))
      ensures Copied(head, copies, Picked(headers, Ids(), id)) && fresh(copies)
    {
      hide Holding, Linked, Ended, CountOf, FirstOf, Copied, Picked;
      head, copies := null, [];
      var tail: Leaf? := null;
      var current := firstHeader;
      ghost var i := 0;
      ghost var hs, ids, picked := headers, Ids(), [];
      LinkedFirst();
      NoneYet(ids, id);
      NothingCopied(ids, id);
      while current != null
        invariant Walkable() && Ids() == ids && |ids| == |leaves| == |headers| && i <= |leaves|
        invariant current == if i < |leaves| then leaves[i] else null
        invariant head != null ==> head !in leaves && tail !in leaves && head.metadata != shared && lastHeader != head && lastHeader != tail
        invariant if head == null then tail == null else Gathered(head, tail)
        invariant Copied(head, copies, picked) && fresh(copies) && picked == Picked(hs[..i], ids[..i], id) && headers == hs
        invariant tail == if copies == [] then null else copies[|copies| - 1]
        invariant head != null ==> fresh(head) && fresh(tail) && fresh(head.metadata)
        invariant head == null <==> CountOf(ids[..i], id) == 0
        invariant head == null ==> FirstOf(ids, id) >= i
        invariant head != null ==> FirstOf(ids, id) < i && head.header == headers[FirstOf(ids, id)]
        invariant head != null ==> head.metadata.count == CountOf(ids[..i], id)
        decreases |leaves| - i
      {
        LeafAt(i);
        OneMore(ids, i, id);
        PickedNext(hs, ids, i, id);
        if current.header != null && current.header.id == id {
          label before:
          head, tail := Gather(head, tail, current.header, copies, picked);
          copies, picked := copies + [tail], picked + [hs[i]];
          assert unchanged@before(this) && unchanged@before(leaves) && (shared != null ==> unchanged@before(shared));
          assert Walkable();
        }
        current := current.next;
        i := i + 1;
      }
      assert ids[..i] == ids && hs[..i] == hs;
    }

    lemma LinkedFirst()
      requires Linked()
      ensures |leaves| == |headers| && firstHeader == if leaves == [] then null else leaves[0]
      ensures leaves != [] ==> shared != null && leaves[|leaves| - 1].metadata == shared
    {
      if leaves != [] { assert LeafOk(|leaves| - 1); }
    }

    lemma LeafAt(i: nat)
      requires Linked() && i < |leaves|
      ensures LeafOk(i)
    {
    }
  }

  lemma NoneYet(ids: seq<HeaderId>, id: HeaderId)
    ensures CountOf(ids[..0], id) == 0
  {
  }

  lemma OneMore(ids: seq<HeaderId>, i: nat, id: HeaderId)
    requires i < |ids|
    ensures CountOf(ids[..i + 1], id) == CountOf(ids[..i], id) + if ids[i] == id then 1 else 0
    ensures FirstOf(ids, id) >= i ==> if ids[i] == id then FirstOf(ids, id) == i else FirstOf(ids, id) > i
  {
    assert ids[..i + 1][..i] == ids[..i];
  }

  /** The headers of a kind, in order. */
  ghost function Picked(hs: seq<SipHeader>, ids: seq<HeaderId>, id: HeaderId): seq<SipHeader>
    requires |hs| == |ids|
  {
    if hs == [] then [] else
      Picked(hs[..|hs| - 1], ids[..|ids| - 1], id) + if ids[|ids| - 1] == id then [hs[|hs| - 1]] else []
  }

  lemma PickedNext(hs: seq<SipHeader>, ids: seq<HeaderId>, i: nat, id: HeaderId)
    requires |hs| == |ids| && i < |hs|
    ensures Picked(hs[..i + 1], ids[..i + 1], id) == Picked(hs[..i], ids[..i], id) + if ids[i] == id then [hs[i]] else []
    ensures ids[i] != id ==> Picked(hs[..i + 1], ids[..i + 1], id) == Picked(hs[..i], ids[..i], id)
  {
    assert hs[..i + 1][..i] == hs[..i] && ids[..i + 1][..i] == ids[..i];
  }

  /** `copies` are linked one behind the other, lead to `hs` and share one count. */
  ghost predicate Copied(head: Leaf?, copies: seq<Leaf>, hs: seq<SipHeader>)
    reads copies
  {
    && |copies| == |hs| && head == (if copies == [] then null else copies[0])
    && (forall i, j :: 0 <= i < j < |copies| ==> copies[i] != copies[j])
    && forall i :: 0 <= i < |copies| ==>
         copies[i].header == hs[i] && copies[i].metadata == head.metadata
         && copies[i].next == if i + 1 < |copies| then copies[i + 1] else null
  }

  lemma NothingCopied(ids: seq<HeaderId>, id: HeaderId)
    ensures Copied(null, [], []) && Picked([], ids[..0], id) == []
  {
  }

  ghost predicate Gathered(head: Leaf, tail: Leaf?)
    reads head, tail
  {
    tail != null && head.metadata != null && tail.metadata == head.metadata
  }

  /** What the search does with a match: copy the leaf, hang it behind the last copy and count it. */
  method Gather(head: Leaf?, tail: Leaf?, header: SipHeader, ghost copies: seq<Leaf>, ghost hs: seq<SipHeader>)
    returns (head': Leaf, tail': Leaf)
    requires if head == null then tail == null else Gathered(head, tail)
    requires Copied(head, copies, hs) && tail == if copies == [] then null else copies[|copies| - 1]
    modifies if head == null then {} else {head, tail, head.metadata}
    ensures Gathered(head', tail') && fresh(tail')
    ensures head == null ==> fresh(head') && fresh(head'.metadata) && head'.header == header && head'.metadata.count == 1
    ensures head != null ==> head' == head && head'.metadata == old(head.metadata) && head'.header == old(head.header)
    ensures head != null ==> head'.metadata.count == old(head.metadata.count) + 1
    ensures Copied(head', copies + [tail'], hs + [header])
  {
    var newLeaf := new Leaf(null, header);
    head', tail' := newLeaf, newLeaf;
    if head != null {
      head' := head;
      tail.index := (head.index + 1) % 65536;
      tail.next := newLeaf;
    }
    if tail == null {
      head'.metadata := new Metadata();
    }
    tail'.metadata := head'.metadata;
    tail'.metadata.count := tail'.metadata.count + 1;
  }
}
