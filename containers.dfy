/** The container dumpers `qDumpQList`, `qDumpQVector`, `qDumpQStringList` and
    `qDumpStdVector`. Each reads the size of the container from the inferior,
    gives up on a negative size, reports the size, and lists at most 1000
    children, closing a longer list with an `<incomplete>` entry.

    What the dumper writes about one element depends on the element's type and on
    the inferior's memory; it is an input here (`Element`): the items written
    after the element's `name`, and the result the inner-value dumper reported. */
module Containers {
  import opened Wire
  import opened Dumper
  import Decimal
  import TypeNames
  import Base64

  /** The most children a container dumper lists. */
  const MaxChildren: int := 1000

  /** `InnerValueResult`: whether a common `childnumchild` makes sense. */
  datatype InnerResult = NotHandled | ChildrenSpecified | NoFurtherChildren | FurtherChildren

  /** One element as the inner-value dumper wrote it: its items after `name`, and the
      result it reported, where the dumper records one. */
  datatype Element = Element(fields: seq<(string, string)>, result: Option<InnerResult>)

  function Items(fs: seq<(string, string)>): seq<Node>
  {
    seq(|fs|, k requires 0 <= k < |fs| => Item(fs[k].0, fs[k].1))
  }

  /** How many children are listed for a container of `n` elements. */
  function Cap(n: int): int
  {
    if n > MaxChildren then MaxChildren else n
  }

  /** The `<incomplete>` entry, present when the list was cut short. */
  function Ellipsis(n: int, innertype: string): seq<Node>
  {
    if Cap(n) < n then [EllipsisNode(innertype)] else []
  }

  /** The common shape of a container reply: the count, `valuedisabled`, `numchild`,
      and when children are wanted, the handler's own items, the listed children
      and the handler's closing items. */
  function Enumerated(n: int, dumpChildren: bool, before: seq<Node>, kids: seq<Node>,
                      innertype: string, after: seq<Node>): seq<Node>
  {
    [CountNode("value", n), Item("valuedisabled", "true"), Item("numchild", Decimal.IntText(n))]
    + (if dumpChildren then before + [Children(kids + Ellipsis(n, innertype))] + after else [])
  }

  /** The entry of the `i`-th element: its name, then what its dumper wrote. */
  function ElementNode(i: int, e: Element): Node
  {
    Hash([Item("name", Decimal.IntText(i))] + Items(e.fields))
  }

  function ElementNodes(elems: seq<Element>, m: nat): seq<Node>
    requires m <= |elems|
  {
    seq(m, i requires 0 <= i < m => ElementNode(i, elems[i]))
  }

  /** The inner-value result after the first `m` elements: the last one recorded. */
  function LastResult(elems: seq<Element>, m: nat): InnerResult
    requires m <= |elems|
  {
    if m == 0 then ChildrenSpecified
    else if elems[m - 1].result.Some? then elems[m - 1].result.value
    else LastResult(elems, m - 1)
  }

  /** `dumpChildNumChildren`. */
  function ChildNumChild(r: InnerResult): seq<Node>
  {
    match r
    case NoFurtherChildren => [Item("childnumchild", "0")]
    case FurtherChildren => [Item("childnumchild", "1")]
    case _ => []
  }

  /** An `int` read as `unsigned` (32 bits). */
  function AsUnsigned(x: int): nat
  {
    x % 0x1_0000_0000
  }

  /** `qDumpQList`'s guess whether the elements are stored in the list's array. */
  predicate IsInternal(innerSize: int, ptrSize: nat, innertype: string)
  {
    AsUnsigned(innerSize) <= ptrSize && TypeNames.IsMovableType(innertype)
  }

  /** Whether a dumper that read size `nn` (and, for `QList`, reference count `ref`)
      writes its reply at all. */
  predicate ListAccepted(nn: int, ref: int)
  {
    nn >= 0 && !(nn > 0 && ref <= 0)
  }

  function QListReply(nn: int, ref: int, dumpChildren: bool, internal: bool, innertype: string,
                      elems: seq<Element>): seq<Node>
    requires nn >= 0 ==> Cap(nn) <= |elems|
  {
    if !ListAccepted(nn, ref) then []
    else Enumerated(nn, dumpChildren,
                    [Item("internal", if internal then "1" else "0"), Item("childtype", innertype)],
                    ElementNodes(elems, Cap(nn)), innertype,
                    ChildNumChild(LastResult(elems, Cap(nn))))
  }

  function QVectorReply(nn: int, dumpChildren: bool, innertype: string, elems: seq<Element>): seq<Node>
    requires nn >= 0 ==> Cap(nn) <= |elems|
  {
    if nn < 0 then []
    else Enumerated(nn, dumpChildren, [], ElementNodes(elems, Cap(nn)), innertype,
                    ChildNumChild(LastResult(elems, Cap(nn))))
  }

  /** The entry of the `i`-th string of a `QStringList`: base64 of its UTF-16. */
  function StringNode(i: int, s: seq<CodeUnit>): Node
  {
    Hash([Item("name", Decimal.IntText(i)), Item("value", Base64.Encode(Utf16Bytes(s))),
          Item("valueencoded", "2")])
  }

  function StringNodes(strs: seq<seq<CodeUnit>>, m: nat): seq<Node>
    requires m <= |strs|
  {
    seq(m, i requires 0 <= i < m => StringNode(i, strs[i]))
  }

  function QStringListReply(n: int, dumpChildren: bool, innertype: string, strs: seq<seq<CodeUnit>>): seq<Node>
    requires n >= 0 ==> Cap(n) <= |strs|
  {
    if n < 0 then []
    else Enumerated(n, dumpChildren, [Item("childtype", "QString"), Item("childnumchild", "0")],
                    StringNodes(strs, Cap(n)), innertype, [])
  }

  /** C++ integer division, which truncates toward zero. */
  function TruncDiv(a: int, b: int): (q: int)
    requires b != 0
  {
    var m := (if a < 0 then -a else a) / (if b < 0 then -b else b);
    if (a < 0) != (b < 0) then -m else m
  }

  function StdVectorReply(nn: int, dumpChildren: bool, innertype: string, elems: seq<Element>): seq<Node>
    requires nn >= 0 ==> Cap(nn) <= |elems|
  {
    if nn < 0 then []
    else Enumerated(nn, dumpChildren, [], ElementNodes(elems, Cap(nn)), innertype, [])
  }

  // ---------------------------------------------------------------------------
  // What the replies say

  /** A container reply advertises the full size, lists exactly `min(n, 1000)`
      children, the `i`-th named `i`, and ends the list with one `<incomplete>` entry
      exactly when `n` exceeds 1000. */
  lemma EnumeratedShape(n: int, before: seq<Node>, kids: seq<Node>, innertype: string, after: seq<Node>)
    requires n >= 0 && |kids| == Cap(n)
    ensures var r := Enumerated(n, true, before, kids, innertype, after);
      && |r| == 4 + |before| + |after|
      && r[2] == Item("numchild", Decimal.IntText(n))
      && r[3 + |before|].Children?
      && var ks := r[3 + |before|].kids;
         && |ks| == (if n > MaxChildren then MaxChildren + 1 else n)
         && ks == kids + (if n > MaxChildren then [EllipsisNode(innertype)] else [])
  {
  }

  /** With children, the reply is the flat reply followed by the handler's items,
      the children and the closing items. */
  lemma EnumeratedSplit(n: int, before: seq<Node>, kids: seq<Node>, innertype: string, after: seq<Node>)
    ensures Enumerated(n, true, before, kids, innertype, after)
         == Enumerated(n, false, [], [], "", []) + before + [Children(kids + Ellipsis(n, innertype))] + after
  {
  }

  /** Without children the reply is just the count, `valuedisabled` and `numchild`. */
  lemma EnumeratedFlat(n: int, before: seq<Node>, kids: seq<Node>, innertype: string, after: seq<Node>)
    ensures Enumerated(n, false, before, kids, innertype, after)
         == [CountNode("value", n), Item("valuedisabled", "true"), Item("numchild", Decimal.IntText(n))]
  {
  }

  /** The `i`-th element entry is named `i`. */
  lemma ElementNamed(elems: seq<Element>, m: nat, i: nat)
    requires m <= |elems| && i < m
    ensures ElementNodes(elems, m)[i].Hash?
    ensures ElementNodes(elems, m)[i].fields[0] == Item("name", Decimal.IntText(i))
  {
  }

  /** `qDumpQList` writes nothing unless the size is non-negative and a non-empty
      list has a positive reference count. Otherwise, with children wanted, the
      reply holds the size, `internal`, the child type, and the first `min(n, 1000)`
      element entries in order, followed by an `<incomplete>` entry exactly when
      the list is longer; without children it is the three summary items alone. */
  lemma QListShape(nn: int, ref: int, internal: bool, innertype: string, elems: seq<Element>)
    requires nn >= 0 ==> Cap(nn) <= |elems|
    ensures QListReply(nn, ref, true, internal, innertype, elems) == [] <==> !ListAccepted(nn, ref)
    ensures ListAccepted(nn, ref) ==> |QListReply(nn, ref, false, internal, innertype, elems)| == 3
    ensures ListAccepted(nn, ref) ==>
      var r := QListReply(nn, ref, true, internal, innertype, elems);
      && r[2] == Item("numchild", Decimal.IntText(nn))
      && r[3] == Item("internal", if internal then "1" else "0")
      && r[4] == Item("childtype", innertype)
      && r[5].Children?
      && |r[5].kids| == (if nn > MaxChildren then MaxChildren + 1 else nn)
      && (forall i :: 0 <= i < Cap(nn) ==> r[5].kids[i] == ElementNode(i, elems[i]))
      && (nn > MaxChildren ==> r[5].kids[MaxChildren] == EllipsisNode(innertype))
  {
    if ListAccepted(nn, ref) {
      var before := [Item("internal", if internal then "1" else "0"), Item("childtype", innertype)];
      var kids := ElementNodes(elems, Cap(nn));
      EnumeratedShape(nn, before, kids, innertype, ChildNumChild(LastResult(elems, Cap(nn))));
    }
  }

  /** `qDumpQVector` and `qDumpStdVector` write nothing for a negative size; with
      children wanted they list the first `min(n, 1000)` elements in order, then
      an `<incomplete>` entry exactly when there are more. */
  lemma VectorShape(nn: int, innertype: string, elems: seq<Element>)
    requires nn >= 0 ==> Cap(nn) <= |elems|
    ensures QVectorReply(nn, true, innertype, elems) == [] <==> nn < 0
    ensures StdVectorReply(nn, true, innertype, elems) == [] <==> nn < 0
    ensures nn >= 0 ==>
      var r := QVectorReply(nn, true, innertype, elems);
      var v := StdVectorReply(nn, true, innertype, elems);
      && r[2] == v[2] == Item("numchild", Decimal.IntText(nn))
      && r[3] == v[3]
      && r[3].Children?
      && |r[3].kids| == (if nn > MaxChildren then MaxChildren + 1 else nn)
      && (forall i :: 0 <= i < Cap(nn) ==> r[3].kids[i] == ElementNode(i, elems[i]))
      && (nn > MaxChildren ==> r[3].kids[MaxChildren] == EllipsisNode(innertype))
  {
    if nn >= 0 {
      var kids := ElementNodes(elems, Cap(nn));
      EnumeratedShape(nn, [], kids, innertype, ChildNumChild(LastResult(elems, Cap(nn))));
      EnumeratedShape(nn, [], kids, innertype, []);
    }
  }

  /** `qDumpQStringList` lists the first `min(n, 1000)` strings in order; the value
      of the `i`-th entry decodes back to the UTF-16 bytes of the `i`-th string. */
  lemma QStringListShape(n: int, innertype: string, strs: seq<seq<CodeUnit>>)
    requires n >= 0 ==> Cap(n) <= |strs|
    ensures QStringListReply(n, true, innertype, strs) == [] <==> n < 0
    ensures n >= 0 ==>
      var r := QStringListReply(n, true, innertype, strs);
      && r[2] == Item("numchild", Decimal.IntText(n))
      && r[5].Children?
      && |r[5].kids| == (if n > MaxChildren then MaxChildren + 1 else n)
      && (forall i :: 0 <= i < Cap(n) ==>
            r[5].kids[i].Hash? && |r[5].kids[i].fields| == 3
            && r[5].kids[i].fields[0] == Item("name", Decimal.IntText(i))
            && Base64.Decode(r[5].kids[i].fields[1].value) == Utf16Bytes(strs[i]))
      && (n > MaxChildren ==> r[5].kids[MaxChildren] == EllipsisNode(innertype))
  {
    if n >= 0 {
      var before := [Item("childtype", "QString"), Item("childnumchild", "0")];
      var kids := StringNodes(strs, Cap(n));
      EnumeratedShape(n, before, kids, innertype, []);
      forall i | 0 <= i < Cap(n)
        ensures Base64.Decode(kids[i].fields[1].value) == Utf16Bytes(strs[i])
      {
        Base64.DecodeEncode(Utf16Bytes(strs[i]));
      }
    }
  }

  // ---------------------------------------------------------------------------
  // Writing the replies

  lemma NodesOpsOne(x: Node)
    ensures NodesOps([x]) == NodeOps(x)
  {
    assert [x][1..] == [];
  }

  lemma NodesOpsSnoc(ns: seq<Node>, x: Node)
    ensures NodesOps(ns + [x]) == NodesOps(ns) + NodeOps(x)
  {
    NodesOpsAppend(ns, [x]);
    NodesOpsOne(x);
  }

  /** Appending one entry's operations to a list of entries' operations. */
  lemma Then(w: Writer, a: seq<Op>, ns: seq<Node>, x: Node)
    ensures Run(Run(w, a + NodesOps(ns)), NodeOps(x)) == Run(w, a + NodesOps(ns + [x]))
  {
    var b := NodesOps(ns);
    var c := NodeOps(x);
    RunAppend(w, a + b, c);
    NodesOpsSnoc(ns, x);
    Assoc(a, b, c);
  }

  lemma Assoc(a: seq<Op>, b: seq<Op>, c: seq<Op>)
    ensures a + b + c == a + (b + c)
  {
  }

  lemma ThenOne(w: Writer, ns: seq<Node>, x: Node)
    ensures Run(Run(w, NodesOps(ns)), NodeOps(x)) == Run(w, NodesOps(ns + [x]))
  {
    NodesOpsSnoc(ns, x);
    RunAppend(w, NodesOps(ns), NodeOps(x));
  }

  /** The loop step over a node list: the `i`-th node after the first `i`. */
  lemma ThenNext(w: Writer, ns: seq<Node>, i: nat)
    requires i < |ns|
    ensures Run(Run(w, NodesOps(ns[..i])), NodeOps(ns[i])) == Run(w, NodesOps(ns[..i + 1]))
  {
    assert ns[..i] + [ns[i]] == ns[..i + 1];
    ThenOne(w, ns[..i], ns[i]);
  }

  lemma ThenAll(w: Writer, ns: seq<Node>, xs: seq<Node>)
    ensures Run(Run(w, NodesOps(ns)), NodesOps(xs)) == Run(w, NodesOps(ns + xs))
  {
    RunAppend(w, NodesOps(ns), NodesOps(xs));
    NodesOpsAppend(ns, xs);
  }

  lemma OpenKids(w: Writer, ns: seq<Node>)
    ensures Run(Run(w, NodesOps(ns)), OpenChildren) == Run(w, NodesOps(ns) + OpenChildren + NodesOps([]))
  {
    RunAppend(w, NodesOps(ns), OpenChildren);
    assert NodesOps(ns) + OpenChildren + NodesOps([]) == NodesOps(ns) + OpenChildren;
  }

  lemma CloseKids(w: Writer, ns: seq<Node>, kids: seq<Node>)
    ensures Run(Run(w, NodesOps(ns) + OpenChildren + NodesOps(kids)), CloseChildren)
         == Run(w, NodesOps(ns + [Children(kids)]))
  {
    RunAppend(w, NodesOps(ns) + OpenChildren + NodesOps(kids), CloseChildren);
    NodesOpsSnoc(ns, Children(kids));
    assert NodeOps(Children(kids)) == OpenChildren + NodesOps(kids) + CloseChildren;
    assert NodesOps(ns) + OpenChildren + NodesOps(kids) + CloseChildren
        == NodesOps(ns) + (OpenChildren + NodesOps(kids) + CloseChildren);
  }

  lemma HashOps(fs: seq<Node>)
    ensures OpenHash + NodesOps(fs) + CloseHash == NodeOps(Hash(fs))
  {
  }

  lemma ChildrenOps(ks: seq<Node>)
    ensures OpenChildren + NodesOps(ks) + CloseChildren == NodeOps(Children(ks))
  {
  }

  lemma Regroup(a: seq<Op>, b: seq<Op>, c: seq<Op>, d: seq<Op>)
    ensures a + b + c + d == a + (b + c + d)
  {
  }

  /** Running `a` then `b` is running the list they make up. */
  lemma Chain(w: Writer, a: seq<Op>, b: seq<Op>, ab: seq<Op>)
    requires ab == a + b
    ensures Run(Run(w, a), b) == Run(w, ab)
  {
    RunAppend(w, a, b);
  }

  lemma ItemsSnoc(fs: seq<(string, string)>, k: nat)
    requires k < |fs|
    ensures Items(fs[..k]) + [Item(fs[k].0, fs[k].1)] == Items(fs[..k + 1])
  {
  }

  lemma ElementNodesSnoc(elems: seq<Element>, i: nat)
    requires i < |elems|
    ensures ElementNodes(elems, i) + [ElementNode(i, elems[i])] == ElementNodes(elems, i + 1)
  {
  }

  lemma StringNodesSnoc(strs: seq<seq<CodeUnit>>, i: nat)
    requires i < |strs|
    ensures StringNodes(strs, i) + [StringNode(i, strs[i])] == StringNodes(strs, i + 1)
  {
  }

  /** The items an element's dumper wrote, one `putItem` after another. */
  method PutFields(d: QDumper, fs: seq<(string, string)>)
    requires d.Valid()
    modifies d, d.out
    ensures d.Valid() && d.Kept()
    ensures d.St() == Run(old(d.St()), NodesOps(Items(fs)))
  {
    ghost var w := d.St();
    assert Items(fs[..0]) == [];
    var k := 0;
    while k < |fs|
      invariant 0 <= k <= |fs|
      invariant d.Valid() && d.Kept()
      invariant d.St() == Run(w, NodesOps(Items(fs[..k])))
    {
      var x := Item(fs[k].0, fs[k].1);
      d.PutItem(fs[k].0, fs[k].1);
      ItemsSnoc(fs, k);
      NodesOpsSnoc(Items(fs[..k]), x);
      Chain(w, NodesOps(Items(fs[..k])), NodeOps(x), NodesOps(Items(fs[..k + 1])));
      k := k + 1;
    }
    assert fs[..k] == fs;
  }

  /** One child of a list: `beginHash`, its name, what its dumper wrote, `endHash`. */
  method PutElement(d: QDumper, i: int, e: Element)
    requires d.Valid()
    modifies d, d.out
    ensures d.Valid() && d.Kept()
    ensures d.St() == Run(old(d.St()), NodeOps(ElementNode(i, e)))
  {
    ghost var w := d.St();
    var name := Item("name", Decimal.IntText(i));
    ghost var fs := [name] + Items(e.fields);
    d.BeginHash();
    d.PutItemNumber("name", i);
    NodesOpsOne(name);
    Chain(w, OpenHash, NodeOps(name), OpenHash + NodesOps([name]));
    PutFields(d, e.fields);
    NodesOpsAppend([name], Items(e.fields));
    Assoc(OpenHash, NodesOps([name]), NodesOps(Items(e.fields)));
    Chain(w, OpenHash + NodesOps([name]), NodesOps(Items(e.fields)), OpenHash + NodesOps(fs));
    d.EndHash();
    HashOps(fs);
    Chain(w, OpenHash + NodesOps(fs), CloseHash, NodeOps(Hash(fs)));
  }

  /** `dumpChildNumChildren`. */
  method PutChildNumChild(d: QDumper, r: InnerResult)
    requires d.Valid()
    modifies d, d.out
    ensures d.Valid() && d.Kept()
    ensures d.St() == Run(old(d.St()), NodesOps(ChildNumChild(r)))
  {
    match r {
      case NoFurtherChildren =>
        d.PutItem("childnumchild", "0");
        NodesOpsOne(Item("childnumchild", "0"));
      case FurtherChildren =>
        d.PutItem("childnumchild", "1");
        NodesOpsOne(Item("childnumchild", "1"));
      case _ =>
    }
  }

  /** The listed elements of a list, vector or `std::vector`, with the inner-value
      result of the last element that reported one. */
  method PutElements(d: QDumper, elems: seq<Element>, n: nat, ghost w: Writer, ghost pre: seq<Op>)
    returns (result: InnerResult)
    requires d.Valid() && n <= |elems|
    requires d.St() == Run(w, pre)
    modifies d, d.out
    ensures d.Valid() && d.Kept()
    ensures d.St() == Run(w, pre + NodesOps(ElementNodes(elems, n)))
    ensures result == LastResult(elems, n)
  {
    result := ChildrenSpecified;
    var i := 0;
    assert ElementNodes(elems, 0) == [];
    assert pre + NodesOps([]) == pre;
    while i != n
      invariant 0 <= i <= n
      invariant d.Valid() && d.Kept()
      invariant d.St() == Run(w, pre + NodesOps(ElementNodes(elems, i)))
      invariant result == LastResult(elems, i)
    {
      var x := ElementNode(i, elems[i]);
      PutElement(d, i, elems[i]);
      ElementNodesSnoc(elems, i);
      Then(w, pre, ElementNodes(elems, i), x);
      if elems[i].result.Some? {
        result := elems[i].result.value;
      }
      i := i + 1;
    }
  }

  /** `beginChildren`, the first `n` elements, the ellipsis if the list was cut
      short, `endChildren`: one `children` entry after the entries `head`. */
  method PutChildList(d: QDumper, elems: seq<Element>, n: nat, nn: int, ghost w: Writer, ghost head: seq<Node>)
    returns (result: InnerResult)
    requires d.Valid() && n == Cap(nn) && n <= |elems|
    requires d.St() == Run(w, NodesOps(head))
    modifies d, d.out
    ensures d.Valid() && d.Kept()
    ensures d.St() == Run(w, NodesOps(head + [Children(ElementNodes(elems, n) + Ellipsis(nn, d.req.innertype))]))
    ensures result == LastResult(elems, n)
  {
    d.BeginChildren();
    Chain(w, NodesOps(head), OpenChildren, NodesOps(head) + OpenChildren);
    result := PutElements(d, elems, n, w, NodesOps(head) + OpenChildren);
    CloseList(d, n, nn, ElementNodes(elems, n), w, NodesOps(head));
    NodesOpsSnoc(head, Children(ElementNodes(elems, n) + Ellipsis(nn, d.req.innertype)));
  }

  /** The `<incomplete>` entry after a list cut short, then `endChildren`. */
  method CloseList(d: QDumper, n: int, nn: int, kids: seq<Node>, ghost w: Writer, ghost pre: seq<Op>)
    requires d.Valid() && n == Cap(nn)
    requires d.St() == Run(w, pre + OpenChildren + NodesOps(kids))
    modifies d, d.out
    ensures d.Valid() && d.Kept()
    ensures d.St() == Run(w, pre + NodeOps(Children(kids + Ellipsis(nn, d.req.innertype))))
  {
    ghost var it := d.req.innertype;
    ghost var ks := kids + Ellipsis(nn, it);
    ghost var a := pre + OpenChildren;
    if n < nn {
      assert Ellipsis(nn, it) == [EllipsisNode(it)];
      d.PutEllipsis();
      Then(w, a, kids, EllipsisNode(it));
    } else {
      assert Ellipsis(nn, it) == [];
      assert ks == kids;
    }
    assert d.St() == Run(w, a + NodesOps(ks));
    d.EndChildren();
    ChildrenOps(ks);
    Regroup(pre, OpenChildren, NodesOps(ks), CloseChildren);
    Chain(w, a + NodesOps(ks), CloseChildren, pre + NodeOps(Children(ks)));
  }

  /** The count, `valuedisabled` and `numchild` items every container reply opens with. */
  method PutCountItems(d: QDumper, n: int)
    requires d.Valid()
    modifies d, d.out
    ensures d.Valid() && d.Kept()
    ensures d.St() == Run(old(d.St()), NodesOps(Enumerated(n, false, [], [], "", [])))
  {
    ghost var w := d.St();
    var count := CountNode("value", n);
    var disabled := Item("valuedisabled", "true");
    var numchild := Item("numchild", Decimal.IntText(n));
    d.PutItemCount("value", n);
    d.PutItem("valuedisabled", "true");
    d.PutItemNumber("numchild", n);
    ThreeNodes(w, count, disabled, numchild);
    assert [count, disabled, numchild] == Enumerated(n, false, [], [], "", []);
  }

  /** Three entries written one after the other. */
  lemma ThreeNodes(w: Writer, a: Node, b: Node, c: Node)
    ensures Run(Run(Run(w, NodeOps(a)), NodeOps(b)), NodeOps(c)) == Run(w, NodesOps([a, b, c]))
  {
    assert [a, b, c][1..] == [b, c] && [b, c][1..] == [c];
    NodesOpsOne(c);
    assert NodesOps([b, c]) == NodeOps(b) + NodeOps(c);
    assert NodesOps([a, b, c]) == NodeOps(a) + (NodeOps(b) + NodeOps(c));
    RunAppend(w, NodeOps(a), NodeOps(b) + NodeOps(c));
    RunAppend(Run(w, NodeOps(a)), NodeOps(b), NodeOps(c));
  }

  /** `qDumpQList`, for a list of size `nn` and reference count `ref` whose
      elements dumped as `elems`, on a machine with `ptrSize`-byte pointers. */
  method DumpQList(d: QDumper, nn: int, ref: int, ptrSize: nat, elems: seq<Element>)
    requires d.Valid() && |d.req.extraInt| == 4
    requires nn >= 0 ==> Cap(nn) <= |elems|
    modifies d, d.out
    ensures d.Valid() && d.out == old(d.out) && d.req == old(d.req)
    ensures d.templateParameters == old(d.templateParameters)
    ensures d.St() == Run(old(d.St()), NodesOps(QListReply(nn, ref, d.req.dumpChildren,
      IsInternal(d.req.extraInt[0], ptrSize, d.req.innertype), d.req.innertype, elems)))
    ensures d.success == (old(d.success) || ListAccepted(nn, ref))
  {
    if nn < 0 {
      return;
    }
    if nn > 0 && ref <= 0 {
      return;
    }
    ghost var w := d.St();
    var n := nn;
    PutCountItems(d, n);
    ghost var head := Enumerated(n, false, [], [], "", []);
    if d.req.dumpChildren {
      QListChildren(d, nn, ptrSize, elems, w, head);
    }
    d.Disarm();
  }

  /** The part of `qDumpQList` written when children are wanted: `internal`,
      `childtype`, the list and `childnumchild`. */
  method QListChildren(d: QDumper, nn: int, ptrSize: nat, elems: seq<Element>, ghost w: Writer, ghost head: seq<Node>)
    requires d.Valid() && |d.req.extraInt| == 4 && nn >= 0 && Cap(nn) <= |elems|
    requires head == Enumerated(nn, false, [], [], "", []) && d.St() == Run(w, NodesOps(head))
    modifies d, d.out
    ensures d.Valid() && d.Kept()
    ensures d.St() == Run(w, NodesOps(Enumerated(nn, true,
      [Item("internal", if IsInternal(d.req.extraInt[0], ptrSize, d.req.innertype) then "1" else "0"),
       Item("childtype", d.req.innertype)],
      ElementNodes(elems, Cap(nn)), d.req.innertype, ChildNumChild(LastResult(elems, Cap(nn))))))
  {
    var n := nn;
    var innerSize := AsUnsigned(d.req.extraInt[0]);
    var isInternal := innerSize <= ptrSize && TypeNames.IsMovableType(d.req.innertype);
    var internal := Item("internal", if isInternal then "1" else "0");
    var childtype := Item("childtype", d.req.innertype);
    d.PutItemNumber("internal", if isInternal then 1 else 0);
    assert Decimal.IntText(if isInternal then 1 else 0) == (if isInternal then "1" else "0");
    ListHead(d, w, head, internal, childtype);
    ghost var ns := head + [internal, childtype];
    if n > 1000 {
      n := 1000;
    }
    var result := PutChildList(d, elems, n, nn, w, ns);
    ghost var children := Children(ElementNodes(elems, n) + Ellipsis(nn, d.req.innertype));
    PutChildNumChild(d, result);
    ThenAll(w, ns + [children], ChildNumChild(result));
    EnumeratedSplit(nn, [internal, childtype], ElementNodes(elems, n), d.req.innertype, ChildNumChild(result));
  }

  /** The `childtype` item after the count items and `internal`. */
  method ListHead(d: QDumper, ghost w: Writer, ghost head: seq<Node>, ghost internal: Node, childtype: Node)
    requires d.Valid() && childtype == Item("childtype", d.req.innertype)
    requires d.St() == Run(Run(w, NodesOps(head)), NodeOps(internal))
    modifies d, d.out
    ensures d.Valid() && d.Kept()
    ensures d.St() == Run(w, NodesOps(head + [internal, childtype]))
  {
    ThenOne(w, head, internal);
    d.PutItem("childtype", d.req.innertype);
    ThenOne(w, head + [internal], childtype);
    assert head + [internal] + [childtype] == head + [internal, childtype];
  }

  /** `qDumpQVector`, for a vector of size `nn` whose elements dumped as `elems`. */
  method DumpQVector(d: QDumper, nn: int, elems: seq<Element>)
    requires d.Valid()
    requires nn >= 0 ==> Cap(nn) <= |elems|
    modifies d, d.out
    ensures d.Valid() && d.out == old(d.out) && d.req == old(d.req)
    ensures d.templateParameters == old(d.templateParameters)
    ensures d.St() == Run(old(d.St()), NodesOps(QVectorReply(nn, d.req.dumpChildren, d.req.innertype, elems)))
    ensures d.success == (old(d.success) || nn >= 0)
  {
    if nn < 0 {
      return;
    }
    ghost var w := d.St();
    var n := nn;
    PutCountItems(d, n);
    ghost var head := Enumerated(n, false, [], [], "", []);
    var result := ChildrenSpecified;
    ghost var ns := head;
    if d.req.dumpChildren {
      if n > 1000 {
        n := 1000;
      }
      result := PutChildList(d, elems, n, nn, w, head);
      ns := head + [Children(ElementNodes(elems, n) + Ellipsis(nn, d.req.innertype))];
    }
    PutChildNumChild(d, result);
    ThenAll(w, ns, ChildNumChild(result));
    if d.req.dumpChildren {
      EnumeratedSplit(nn, [], ElementNodes(elems, n), d.req.innertype, ChildNumChild(result));
      assert head + [] == head;
    } else {
      assert ns + ChildNumChild(result) == head;
    }
    d.Disarm();
  }

  /** One string of a `QStringList`: its name, its value in base64 of UTF-16, and
      `valueencoded="2"`. */
  method PutStringEntry(d: QDumper, i: int, s: seq<CodeUnit>)
    requires d.Valid()
    modifies d, d.out
    ensures d.Valid() && d.Kept()
    ensures d.St() == Run(old(d.St()), NodeOps(StringNode(i, s)))
  {
    ghost var w := d.St();
    var name := Item("name", Decimal.IntText(i));
    var value := Item("value", Base64.Encode(Utf16Bytes(s)));
    var encoded := Item("valueencoded", "2");
    d.BeginHash();
    d.PutItemNumber("name", i);
    d.PutItemEncoded("value", Utf16Bytes(s));
    d.PutItem("valueencoded", "2");
    d.EndHash();
    HashOfThree(w, name, value, encoded);
  }

  /** `beginHash`, three entries, `endHash`: one hash entry. */
  lemma HashOfThree(w: Writer, a: Node, b: Node, c: Node)
    ensures Run(Run(Run(Run(Run(w, OpenHash), NodeOps(a)), NodeOps(b)), NodeOps(c)), CloseHash)
         == Run(w, NodeOps(Hash([a, b, c])))
  {
    ThreeNodes(Run(w, OpenHash), a, b, c);
    Chain(w, OpenHash, NodesOps([a, b, c]), OpenHash + NodesOps([a, b, c]));
    HashOps([a, b, c]);
    Chain(w, OpenHash + NodesOps([a, b, c]), CloseHash, NodeOps(Hash([a, b, c])));
  }

  method PutStrings(d: QDumper, strs: seq<seq<CodeUnit>>, n: nat, ghost w: Writer, ghost pre: seq<Op>)
    requires d.Valid() && n <= |strs|
    requires d.St() == Run(w, pre)
    modifies d, d.out
    ensures d.Valid() && d.Kept()
    ensures d.St() == Run(w, pre + NodesOps(StringNodes(strs, n)))
  {
    var i := 0;
    assert StringNodes(strs, 0) == [];
    assert pre + NodesOps([]) == pre;
    while i != n
      invariant 0 <= i <= n
      invariant d.Valid() && d.Kept()
      invariant d.St() == Run(w, pre + NodesOps(StringNodes(strs, i)))
    {
      var x := StringNode(i, strs[i]);
      PutStringEntry(d, i, strs[i]);
      StringNodesSnoc(strs, i);
      Then(w, pre, StringNodes(strs, i), x);
      i := i + 1;
    }
  }

  /** `qDumpQStringList`, for a list of `n` strings `strs`. */
  method DumpQStringList(d: QDumper, n: int, strs: seq<seq<CodeUnit>>)
    requires d.Valid()
    requires n >= 0 ==> Cap(n) <= |strs|
    modifies d, d.out
    ensures d.Valid() && d.out == old(d.out) && d.req == old(d.req)
    ensures d.templateParameters == old(d.templateParameters)
    ensures d.St() == Run(old(d.St()), NodesOps(QStringListReply(n, d.req.dumpChildren, d.req.innertype, strs)))
    ensures d.success == (old(d.success) || n >= 0)
  {
    if n < 0 {
      return;
    }
    ghost var w := d.St();
    var m := n;
    PutCountItems(d, m);
    ghost var head := Enumerated(n, false, [], [], "", []);
    if d.req.dumpChildren {
      ghost var childtype := Item("childtype", "QString");
      ghost var childnumchild := Item("childnumchild", "0");
      StringListHead(d, w, head);
      ghost var ns := head + [childtype, childnumchild];
      if m > 1000 {
        m := 1000;
      }
      d.BeginChildren();
      Chain(w, NodesOps(ns), OpenChildren, NodesOps(ns) + OpenChildren);
      PutStrings(d, strs, m, w, NodesOps(ns) + OpenChildren);
      CloseList(d, m, n, StringNodes(strs, m), w, NodesOps(ns));
      ghost var children := Children(StringNodes(strs, m) + Ellipsis(n, d.req.innertype));
      NodesOpsSnoc(ns, children);
      EnumeratedSplit(n, [childtype, childnumchild], StringNodes(strs, m), d.req.innertype, []);
      assert ns + [children] == head + [childtype, childnumchild] + [children] + [];
    }
    d.Disarm();
  }

  /** The `childtype` and `childnumchild` items of a string list. */
  method StringListHead(d: QDumper, ghost w: Writer, ghost head: seq<Node>)
    requires d.Valid() && d.St() == Run(w, NodesOps(head))
    modifies d, d.out
    ensures d.Valid() && d.Kept()
    ensures d.St() == Run(w, NodesOps(head + [Item("childtype", "QString"), Item("childnumchild", "0")]))
  {
    var childtype := Item("childtype", "QString");
    var childnumchild := Item("childnumchild", "0");
    d.PutItem("childtype", "QString");
    ThenOne(w, head, childtype);
    d.PutItem("childnumchild", "0");
    ThenOne(w, head + [childtype], childnumchild);
    assert head + [childtype] + [childnumchild] == head + [childtype, childnumchild];
  }

  /** `qDumpStdVector`, for a vector whose `start` and `finish` pointers are given and
      whose elements dumped as `elems`; `extraInt[0]` is the element size. */
  method DumpStdVector(d: QDumper, start: int, finish: int, elems: seq<Element>)
    requires d.Valid() && |d.req.extraInt| == 4 && d.req.extraInt[0] != 0
    requires TruncDiv(finish - start, d.req.extraInt[0]) >= 0 ==>
      Cap(TruncDiv(finish - start, d.req.extraInt[0])) <= |elems|
    modifies d, d.out
    ensures d.Valid() && d.out == old(d.out) && d.req == old(d.req)
    ensures d.templateParameters == old(d.templateParameters)
    ensures d.St() == Run(old(d.St()), NodesOps(StdVectorReply(TruncDiv(finish - start, d.req.extraInt[0]),
      d.req.dumpChildren, d.req.innertype, elems)))
    ensures d.success == (old(d.success) || TruncDiv(finish - start, d.req.extraInt[0]) >= 0)
  {
    var nn := TruncDiv(finish - start, d.req.extraInt[0]);
    if nn < 0 {
      return;
    }
    ghost var w := d.St();
    var n := nn;
    PutCountItems(d, n);
    ghost var head := Enumerated(n, false, [], [], "", []);
    if d.req.dumpChildren {
      if n > 1000 {
        n := 1000;
      }
      var _ := PutChildList(d, elems, n, nn, w, head);
      ghost var children := Children(ElementNodes(elems, n) + Ellipsis(nn, d.req.innertype));
      EnumeratedSplit(nn, [], ElementNodes(elems, n), d.req.innertype, []);
      assert head + [children] == head + [] + [children] + [];
      PutChildNumChild(d, ChildrenSpecified);
    }
    d.Disarm();
  }

  /** `qDumpStdVectorBool` hands over to `qDumpStdVector`. */
  method DumpStdVectorBool(d: QDumper, start: int, finish: int, elems: seq<Element>)
    requires d.Valid() && |d.req.extraInt| == 4 && d.req.extraInt[0] != 0
    requires TruncDiv(finish - start, d.req.extraInt[0]) >= 0 ==>
      Cap(TruncDiv(finish - start, d.req.extraInt[0])) <= |elems|
    modifies d, d.out
    ensures d.Valid() && d.out == old(d.out) && d.req == old(d.req)
    ensures d.templateParameters == old(d.templateParameters)
    ensures d.St() == Run(old(d.St()), NodesOps(StdVectorReply(TruncDiv(finish - start, d.req.extraInt[0]),
      d.req.dumpChildren, d.req.innertype, elems)))
    ensures d.success == (old(d.success) || TruncDiv(finish - start, d.req.extraInt[0]) >= 0)
  {
    DumpStdVector(d, start, finish, elems);
  }
}
