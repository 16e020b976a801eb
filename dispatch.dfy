/** The entry point `qDumpObjectData440` for protocols 2 and 3 and the dispatcher
    `handleProtocolVersion2and3`: the request is read from the input buffer as five
    NUL-terminated strings, the inner type is cut into its template parameters,
    the entry's `iname` and `addr` are written, the handler chosen by the outer type
    writes the rest, and a reply that no handler accepted is closed by
    `qDumpUnknown`. Every reply therefore reaches the debugger marked as finished. */
module Dispatch {
  import opened Wire
  import opened Dumper
  import opened Containers
  import TypeNames
  import Decimal
  import TP = TemplateParams

  /** Size of the request buffer `qDumpInBuffer`. */
  const InBufferSize: int := 10000

  // ---------------------------------------------------------------------------
  // Reading the request

  /** The position after the NUL that ends the C string at `k`, if the text has one. */
  function SkipField(s: seq<char>, k: nat): Option<nat>
    decreases |s| - k
  {
    if k >= |s| then None
    else if s[k] == '\0' then Some(k + 1)
    else SkipField(s, k + 1)
  }

  /** Where `n` consecutive NUL-terminated strings start, the first at `k`; `None`
      when the text ends before the `n`-th NUL. */
  function FieldStarts(s: seq<char>, k: nat, n: nat): Option<seq<nat>>
    decreases n
  {
    if n == 0 then Some([])
    else match SkipField(s, k)
      case None => None
      case Some(k') =>
        match FieldStarts(s, k', n - 1)
        case None => None
        case Some(rest) => Some([k] + rest)
  }

  /** A request the debugger wrote: five NUL-terminated strings inside the buffer. */
  predicate WellFormedRequest(s: seq<char>)
  {
    FieldStarts(s, 0, 5).Some?
  }

  /** What the debugger writes into the request buffer: each field followed by a NUL. */
  function EncodeFields(fs: seq<string>): string
  {
    if fs == [] then "" else fs[0] + ['\0'] + EncodeFields(fs[1..])
  }

  /** The field starting at `k` is a C string ending at the NUL at `e`. */
  predicate FieldEndsAt(s: seq<char>, k: nat, e: int)
  {
    k <= e < |s| && s[e] == '\0' && '\0' !in s[k..e] && TP.CString(s, k) == s[k..e]
  }

  /** The C string at `k` ends at the NUL that `SkipField` skips. */
  lemma {:induction false} SkipFieldShape(s: seq<char>, k: nat)
    requires SkipField(s, k).Some?
    decreases |s| - k
    ensures FieldEndsAt(s, k, SkipField(s, k).value - 1)
  {
    if s[k] == '\0' {
      assert SkipField(s, k) == Some(k + 1);
      assert s[k..k] == [];
    } else {
      assert SkipField(s, k) == SkipField(s, k + 1);
      SkipFieldShape(s, k + 1);
      var e := SkipField(s, k).value - 1;
      assert TP.CString(s, k) == [s[k]] + TP.CString(s, k + 1);
      assert s[k..e] == [s[k]] + s[k + 1..e];
    }
  }

  /** Skipping a field that holds no NUL lands right after its terminator. */
  lemma {:induction false} SkipOver(s: seq<char>, k: nat, f: string)
    requires k + |f| < |s| && s[k..k + |f|] == f && s[k + |f|] == '\0' && '\0' !in f
    decreases |f|
    ensures SkipField(s, k) == Some(k + |f| + 1)
    ensures TP.CString(s, k) == f
  {
    if f != [] {
      assert s[k] == f[0];
      assert s[k + 1..k + 1 + |f[1..]|] == f[1..];
      SkipOver(s, k + 1, f[1..]);
    }
  }

  /** Reading the fields back from what the debugger wrote gives the fields, whatever
      follows them in the buffer. */
  lemma ReadEncodedFields(pre: string, fs: seq<string>, rest: string)
    requires forall i :: 0 <= i < |fs| ==> '\0' !in fs[i]
    ensures var s := pre + EncodeFields(fs) + rest;
      && FieldStarts(s, |pre|, |fs|).Some?
      && |FieldStarts(s, |pre|, |fs|).value| == |fs|
      && forall i :: 0 <= i < |fs| ==> TP.CString(s, FieldStarts(s, |pre|, |fs|).value[i]) == fs[i]
  {
    var s := pre + EncodeFields(fs) + rest;
    assert s[|pre|..|pre| + |EncodeFields(fs)|] == EncodeFields(fs);
    ReadFields(s, |pre|, fs);
  }

  /** The same, for a buffer `s` holding the encoded fields at `k`. */
  lemma {:induction false} ReadFields(s: seq<char>, k: nat, fs: seq<string>)
    requires forall i :: 0 <= i < |fs| ==> '\0' !in fs[i]
    requires k + |EncodeFields(fs)| <= |s| && s[k..k + |EncodeFields(fs)|] == EncodeFields(fs)
    decreases |fs|
    ensures FieldStarts(s, k, |fs|).Some?
    ensures |FieldStarts(s, k, |fs|).value| == |fs|
    ensures forall i :: 0 <= i < |fs| ==> TP.CString(s, FieldStarts(s, k, |fs|).value[i]) == fs[i]
  {
    if fs != [] {
      var k' := k + |fs[0]| + 1;
      EncodeCons(fs);
      FieldThenRest(s, k, fs[0], EncodeFields(fs[1..]));
      assert '\0' !in fs[0];
      TailFields(fs);
      SkipOver(s, k, fs[0]);
      ReadFields(s, k', fs[1..]);
      StartsCons(s, k, |fs|);
      ReadBackCons(s, k, FieldStarts(s, k', |fs| - 1).value, fs);
    }
  }

  /** A field, its NUL and what follows, found in a buffer at `k`. */
  lemma FieldThenRest(s: seq<char>, k: nat, f: string, e: string)
    requires k + |(f + ['\0']) + e| <= |s| && s[k..k + |(f + ['\0']) + e|] == (f + ['\0']) + e
    ensures k + |f| < |s| && s[k..k + |f|] == f && s[k + |f|] == '\0'
    ensures s[k + |f| + 1..k + |f| + 1 + |e|] == e
  {
    SliceParts(s, k, f + ['\0'], e);
    SliceParts(s, k, f, ['\0']);
    SliceOne(s, k + |f|, '\0');
  }

  /** The encoding of a non-empty list: the first field, its NUL, the rest. */
  lemma EncodeCons(fs: seq<string>)
    requires fs != []
    ensures EncodeFields(fs) == (fs[0] + ['\0']) + EncodeFields(fs[1..])
  {
  }

  /** The fields after the first keep what is true of every field. */
  lemma TailFields(fs: seq<string>)
    requires fs != [] && forall i :: 0 <= i < |fs| ==> '\0' !in fs[i]
    ensures forall i :: 0 <= i < |fs[1..]| ==> '\0' !in fs[1..][i]
  {
    forall i | 0 <= i < |fs[1..]|
      ensures '\0' !in fs[1..][i]
    {
      assert fs[1..][i] == fs[i + 1];
    }
  }

  /** A one-element slice names the element at its start. */
  lemma SliceOne<T>(s: seq<T>, k: nat, c: T)
    requires k + 1 <= |s| && s[k..k + 1] == [c]
    ensures s[k] == c
  {
    assert s[k] == s[k..k + 1][0];
  }

  /** A slice holding `a + b` holds `a` and then `b`. */
  lemma SliceParts<T>(s: seq<T>, k: nat, a: seq<T>, b: seq<T>)
    requires k + |a + b| <= |s| && s[k..k + |a + b|] == a + b
    ensures s[k..k + |a|] == a && s[k + |a|..k + |a| + |b|] == b
  {
    assert s[k..k + |a|] == (a + b)[..|a|];
    assert s[k + |a|..k + |a| + |b|] == (a + b)[|a|..];
  }

  /** One more field in front: its start, then the starts after its NUL. */
  lemma StartsCons(s: seq<char>, k: nat, n: nat)
    requires n > 0 && SkipField(s, k).Some? && FieldStarts(s, SkipField(s, k).value, n - 1).Some?
    ensures FieldStarts(s, k, n) == Some([k] + FieldStarts(s, SkipField(s, k).value, n - 1).value)
  {
  }

  lemma ReadBackCons(s: seq<char>, k: nat, tail: seq<nat>, fs: seq<string>)
    requires fs != [] && |tail| == |fs| - 1 && TP.CString(s, k) == fs[0]
    requires forall i :: 0 <= i < |fs[1..]| ==> TP.CString(s, tail[i]) == fs[1..][i]
    ensures forall i :: 0 <= i < |fs| ==> TP.CString(s, ([k] + tail)[i]) == fs[i]
  {
    forall i | 1 <= i < |fs|
      ensures TP.CString(s, ([k] + tail)[i]) == fs[i]
    {
      assert ([k] + tail)[i] == tail[i - 1];
      assert fs[1..][i - 1] == fs[i];
    }
  }

  /** A request written by the debugger is well formed as long as it fits. */
  lemma RequestRoundTrip(fs: seq<string>, rest: string)
    requires |fs| == 5 && forall i :: 0 <= i < 5 ==> '\0' !in fs[i]
    ensures WellFormedRequest(EncodeFields(fs) + rest)
    ensures forall i :: 0 <= i < 5 ==>
      TP.CString(EncodeFields(fs) + rest, FieldStarts(EncodeFields(fs) + rest, 0, 5).value[i]) == fs[i]
  {
    ReadEncodedFields("", fs, rest);
    assert "" + EncodeFields(fs) + rest == EncodeFields(fs) + rest;
  }

  /** The walk over the request buffer: each field starts where the previous one's
      NUL was skipped. */
  method ReadFieldStarts(buf: array<char>) returns (starts: seq<nat>)
    requires WellFormedRequest(buf[..])
    ensures starts == FieldStarts(buf[..], 0, 5).value
  {
    ghost var s := buf[..];
    var p := 0;
    starts := [];
    for i := 0 to 5
      invariant FieldStarts(s, p, 5 - i).Some?
      invariant starts + FieldStarts(s, p, 5 - i).value == FieldStarts(s, 0, 5).value
    {
      StartsStep(s, p, 5 - i);
      ghost var next := SkipField(s, p).value;
      AppendStart(starts, p, FieldStarts(s, next, 4 - i).value, FieldStarts(s, 0, 5).value);
      starts := starts + [p];
      while buf[p] != '\0'
        invariant p < buf.Length && SkipField(s, p) == Some(next)
        decreases buf.Length - p
      {
        p := p + 1;
      }
      assert s[p] == '\0';
      p := p + 1;
    }
  }

  lemma AppendStart(starts: seq<nat>, k: nat, tail: seq<nat>, all: seq<nat>)
    requires starts + ([k] + tail) == all
    ensures (starts + [k]) + tail == all
  {
  }

  /** One field read: the field at `k` ends, and the rest start after its NUL. */
  lemma StartsStep(s: seq<char>, k: nat, n: nat)
    requires n > 0 && FieldStarts(s, k, n).Some?
    ensures SkipField(s, k).Some? && k < |s|
    ensures FieldStarts(s, SkipField(s, k).value, n - 1).Some?
    ensures FieldStarts(s, k, n).value == [k] + FieldStarts(s, SkipField(s, k).value, n - 1).value
  {
  }

  // ---------------------------------------------------------------------------
  // The reply

  /** `put(const void *)` for a non-null address: `0x` and the hexadecimal digits. */
  function PointerText(p: nat): string
  {
    "0x" + Decimal.HexText(p)
  }

  /** What `qDumpUnknown` writes with its default reason. */
  function UnknownNodes(outertype: string): seq<Node>
  {
    [Item("value", "<internal error>"), Item("type", outertype), Item("numchild", "0")]
  }

  /** What the handlers read from the inferior's memory, and what the handlers this
      model does not follow write: `size` is the container's size as its dumper reads
      it, `ref` a `QList`'s reference count, `start` and `finish` a `std::vector`'s
      pointers, `elems` and `strings` the elements as their dumpers wrote them. */
  datatype Inferior = Inferior(
    size: int,
    ref: int,
    pointerSize: nat,
    elems: seq<Element>,
    strings: seq<seq<CodeUnit>>,
    start: int,
    finish: int,
    other: seq<Node>,
    otherDisarms: bool)

  /** The inferior holds as many elements as the chosen handler lists, and a
      `std::vector`'s element size is not zero. */
  predicate Readable(h: TypeNames.Handler, extraInt: seq<int>, m: Inferior)
  {
    && |extraInt| == 4
    && ((h.QList? || h.QVector?) ==> (m.size >= 0 ==> Cap(m.size) <= |m.elems|))
    && (h.QStringList? ==> (m.size >= 0 ==> Cap(m.size) <= |m.strings|))
    && ((h.StdVector? || h.StdVectorBool?) ==>
          extraInt[0] != 0
          && (TruncDiv(m.finish - m.start, extraInt[0]) >= 0 ==>
                Cap(TruncDiv(m.finish - m.start, extraInt[0])) <= |m.elems|))
  }

  /** What the handler writes for the request, and whether it disarms the dumper. */
  function HandlerReply(h: TypeNames.Handler, r: Request, m: Inferior): (seq<Node>, bool)
    requires Readable(h, r.extraInt, m)
  {
    if h.QList? then
      (QListReply(m.size, m.ref, r.dumpChildren, IsInternal(r.extraInt[0], m.pointerSize, r.innertype),
                  r.innertype, m.elems),
       ListAccepted(m.size, m.ref))
    else if h.QVector? then (QVectorReply(m.size, r.dumpChildren, r.innertype, m.elems), m.size >= 0)
    else if h.QStringList? then (QStringListReply(m.size, r.dumpChildren, r.innertype, m.strings), m.size >= 0)
    else if h.StdVector? || h.StdVectorBool? then
      var nn := TruncDiv(m.finish - m.start, r.extraInt[0]);
      (StdVectorReply(nn, r.dumpChildren, r.innertype, m.elems), nn >= 0)
    else if h.NoHandler? then ([], false)
    else (m.other, m.otherDisarms)
  }

  /** The request as the handlers see it: once the outer type is known, the inner
      type is cut down to its first template parameter. */
  function Prepared(r: Request): Request
  {
    if r.outertype == [] then r else r.(innertype := TP.Split(r.innertype)[0])
  }

  /** The entries of a protocol 2 or 3 reply for a prepared request. */
  function Protocol23Nodes(r: Request, m: Inferior): seq<Node>
    requires Readable(TypeNames.Classify(r.outertype), r.extraInt, m)
  {
    if r.outertype == [] then UnknownNodes(r.outertype)
    else
      var head := [Item("iname", r.iname)] + (if r.data != 0 then [Item("addr", PointerText(r.data))] else []);
      var reply := HandlerReply(TypeNames.Classify(r.outertype), r, m);
      head + reply.0 + (if reply.1 then [] else UnknownNodes(r.outertype))
  }

  /** What the debugger reads back after a reply of these entries was written into a
      fresh dumper and the dumper was disarmed and destroyed. */
  function ReplyText(ns: seq<Node>): string
  {
    Reply(Run(Observed("f"), NodesOps(ns)), true)
  }

  /** The reply the debugger reads: the marker `t`, or `+` when the entries did not
      fit, then as much of the entries as fits before the fill limit, then a NUL. */
  lemma ReplyShape(ns: seq<Node>)
    requires ns != []
    ensures var j := Join(ns);
      ReplyText(ns) == [if |j| >= FillLimit then '+' else 't'] + j[..Min(|j|, FillLimit - 1)] + ['\0']
  {
    var j := Join(ns);
    RunObserved("f", NodesOps(ns));
    NodesEmit("f", ns);
    assert IdealComma("f") == "f";
    MarkedText(j);
    ArmedReply(Observed("f" + j));
  }

  /** The buffer after the marker `f` and the text `j`: the marker, then `j` up to
      the fill limit, full exactly when `j` reaches it. */
  lemma MarkedText(j: string)
    ensures var w := Observed("f" + j);
      |w.text| >= 1 && w.text[1..] == j[..Min(|j|, FillLimit - 1)] && (w.full <==> |j| >= FillLimit)
  {
    var t := "f" + j;
    assert t[..Min(|t|, FillLimit)][1..] == j[..Min(|j|, FillLimit - 1)];
  }

  /** A disarmed reply: the marker replaced, the rest of the text, a NUL. */
  lemma ArmedReply(w: Writer)
    requires |w.text| >= 1
    ensures Reply(w, true) == [if w.full then '+' else 't'] + w.text[1..] + ['\0']
  {
    assert (w.text + ['\0'])[1..] == w.text[1..] + ['\0'];
  }

  /** A protocol 2 or 3 reply always has entries: the `iname`, or what
      `qDumpUnknown` writes. */
  lemma Protocol23NotEmpty(r: Request, m: Inferior)
    requires Readable(TypeNames.Classify(r.outertype), r.extraInt, m)
    ensures Protocol23Nodes(r, m) != []
    ensures r.outertype != [] ==> Protocol23Nodes(r, m)[0] == Item("iname", r.iname)
    ensures r.outertype == [] ==> Protocol23Nodes(r, m) == UnknownNodes([])
  {
  }

  /** A protocol 2 or 3 reply is never left marked `f`: it starts with `t`, or with
      `+` exactly when its entries reached the fill limit, and ends with a NUL. */
  lemma ReplyFinished(r: Request, m: Inferior)
    requires Readable(TypeNames.Classify(r.outertype), r.extraInt, m)
    ensures var t := ReplyText(Protocol23Nodes(r, m));
      && 2 <= |t| <= FillLimit + 1
      && (t[0] == '+' <==> |Join(Protocol23Nodes(r, m))| >= FillLimit)
      && (t[0] == 't' <==> |Join(Protocol23Nodes(r, m))| < FillLimit)
      && t[|t| - 1] == '\0'
  {
    Protocol23NotEmpty(r, m);
    ReplyShape(Protocol23Nodes(r, m));
  }

  /** An outer type with no handler is reported as unknown, after its `iname` and
      `addr`; a handler that accepts the request has the last word. */
  lemma Fallback(r: Request, m: Inferior)
    requires Readable(TypeNames.Classify(r.outertype), r.extraInt, m)
    requires r.outertype != []
    ensures var ns := Protocol23Nodes(r, m);
      && (TypeNames.Classify(r.outertype) == TypeNames.NoHandler ==>
            ns[|ns| - 3..] == UnknownNodes(r.outertype)
            && |ns| == (if r.data != 0 then 5 else 4))
      && (HandlerReply(TypeNames.Classify(r.outertype), r, m).1 ==>
            ns[|ns| - |HandlerReply(TypeNames.Classify(r.outertype), r, m).0|..]
              == HandlerReply(TypeNames.Classify(r.outertype), r, m).0)
  {
  }

  // ---------------------------------------------------------------------------
  // Writing the reply

  /** Writes any entry through the dumper's helpers; stands for the handlers this
      model does not follow. */
  method PutNode(d: QDumper, n: Node)
    requires d.Valid()
    modifies d, d.out
    decreases n, 1
    ensures d.Valid() && d.Kept()
    ensures d.St() == Run(old(d.St()), NodeOps(n))
  {
    ghost var w := d.St();
    match n
    case Item(k, v) =>
      d.PutItem(k, v);
    case Hash(fs) =>
      d.BeginHash();
      PutNodes(d, fs);
      Chain(w, OpenHash, NodesOps(fs), OpenHash + NodesOps(fs));
      d.EndHash();
      Chain(w, OpenHash + NodesOps(fs), CloseHash, OpenHash + NodesOps(fs) + CloseHash);
      HashOps(fs);
    case Children(ks) =>
      d.BeginChildren();
      PutNodes(d, ks);
      Chain(w, OpenChildren, NodesOps(ks), OpenChildren + NodesOps(ks));
      d.EndChildren();
      Chain(w, OpenChildren + NodesOps(ks), CloseChildren, OpenChildren + NodesOps(ks) + CloseChildren);
  }

  method PutNodes(d: QDumper, ns: seq<Node>)
    requires d.Valid()
    modifies d, d.out
    decreases ns, 0
    ensures d.Valid() && d.Kept()
    ensures d.St() == Run(old(d.St()), NodesOps(ns))
  {
    ghost var w := d.St();
    assert ns[..0] == [];
    for i := 0 to |ns|
      invariant d.Valid() && d.Kept()
      invariant d.St() == Run(w, NodesOps(ns[..i]))
    {
      PutNode(d, ns[i]);
      ThenNext(w, ns, i);
    }
    assert ns[..|ns|] == ns;
  }

  /** `qDumpUnknown` with its default reason: the reply says the type could not be
      dumped, and the dumper is disarmed. */
  method DumpUnknown(d: QDumper)
    requires d.Valid()
    modifies d, d.out
    ensures d.Valid() && d.success && d.out == old(d.out) && d.req == old(d.req)
    ensures d.templateParameters == old(d.templateParameters)
    ensures d.St() == Run(old(d.St()), NodesOps(UnknownNodes(d.req.outertype)))
  {
    ghost var w := d.St();
    ghost var t := d.req.outertype;
    d.PutItem("value", "<internal error>");
    ThenOne(w, [], Item("value", "<internal error>"));
    d.PutItem("type", d.req.outertype);
    ThenOne(w, [Item("value", "<internal error>")], Item("type", t));
    d.PutItem("numchild", "0");
    ThenOne(w, [Item("value", "<internal error>"), Item("type", t)], Item("numchild", "0"));
    d.Disarm();
  }

  /** The switch of `handleProtocolVersion2and3`: the chosen handler writes its reply
      and disarms the dumper if it accepted the request. */
  method RunHandler(d: QDumper, h: TypeNames.Handler, m: Inferior)
    requires d.Valid() && Readable(h, d.req.extraInt, m)
    modifies d, d.out
    ensures d.Valid() && d.out == old(d.out) && d.req == old(d.req)
    ensures d.templateParameters == old(d.templateParameters)
    ensures d.St() == Run(old(d.St()), NodesOps(HandlerReply(h, d.req, m).0))
    ensures d.success == (old(d.success) || HandlerReply(h, d.req, m).1)
  {
    if h.QList? {
      DumpQList(d, m.size, m.ref, m.pointerSize, m.elems);
    } else if h.QVector? {
      DumpQVector(d, m.size, m.elems);
    } else if h.QStringList? {
      DumpQStringList(d, m.size, m.strings);
    } else if h.StdVector? {
      DumpStdVector(d, m.start, m.finish, m.elems);
    } else if h.StdVectorBool? {
      DumpStdVectorBool(d, m.start, m.finish, m.elems);
    } else if h.NoHandler? {
      assert NodesOps([]) == [];
    } else {
      PutNodes(d, m.other);
      if m.otherDisarms {
        d.Disarm();
      }
    }
  }

  /** The `iname` entry and, for a non-null object, its `addr`. */
  method PutHead(d: QDumper) returns (ghost head: seq<Node>)
    requires d.Valid()
    modifies d, d.out
    ensures d.Valid() && d.Kept()
    ensures head == [Item("iname", d.req.iname)]
                    + (if d.req.data != 0 then [Item("addr", PointerText(d.req.data))] else [])
    ensures d.St() == Run(old(d.St()), NodesOps(head))
  {
    ghost var w := d.St();
    d.PutItem("iname", d.req.iname);
    ThenOne(w, [], Item("iname", d.req.iname));
    head := [Item("iname", d.req.iname)];
    if d.req.data != 0 {
      d.PutItem("addr", PointerText(d.req.data));
      ThenOne(w, head, Item("addr", PointerText(d.req.data)));
      head := head + [Item("addr", PointerText(d.req.data))];
    }
  }

  /** `handleProtocolVersion2and3`: the inner type, a C string at `innerStart` of the
      request buffer, is cut into its template parameters; the reply is the one
      `Protocol23Nodes` describes, and the dumper ends disarmed. */
  method HandleProtocolVersion2and3(d: QDumper, inBuf: array<char>, innerStart: nat, ghost innerEnd: nat,
                                    m: Inferior)
    requires d.Valid() && !d.success && inBuf != d.out
    requires innerStart <= innerEnd < inBuf.Length && inBuf[innerEnd] == '\0'
    requires '\0' !in inBuf[innerStart..innerEnd] && d.req.innertype == inBuf[innerStart..innerEnd]
    requires Readable(TypeNames.Classify(d.req.outertype), d.req.extraInt, m)
    modifies d, d.out, inBuf, d.templateParameters
    ensures d.Valid() && d.success && d.out == old(d.out)
    ensures d.req == Prepared(old(d.req))
    ensures d.St() == Run(old(d.St()), NodesOps(Protocol23Nodes(d.req, m)))
  {
    ghost var w := d.St();
    if d.req.outertype == [] {
      DumpUnknown(d);
      return;
    }
    d.SetupTemplateParameters(inBuf, innerStart, innerEnd);
    var head := PutHead(d);
    ghost var w1 := d.St();
    var h := TypeNames.Classify(d.req.outertype);
    RunHandler(d, h, m);
    ghost var reply := HandlerReply(h, d.req, m);
    ThenAll(w, head, reply.0);
    ghost var w2 := d.St();
    if !d.success {
      DumpUnknown(d);
      ThenAll(w, head + reply.0, UnknownNodes(d.req.outertype));
    } else {
      assert head + reply.0 + [] == head + reply.0;
    }
  }

  /** `qDumpObjectData440` for every protocol but 1: for protocols 2 and 3 the
      request is read from the input buffer and the reply written into the output
      buffer, always marked as finished; other versions leave the output alone. */
  method DumpObjectData440(protocolVersion: int, token: int, data: nat, dumpChildren: bool,
                           extraInt0: int, extraInt1: int, extraInt2: int, extraInt3: int,
                           inBuf: array<char>, outBuf: array<char>, m: Inferior)
    requires protocolVersion != 1
    requires inBuf.Length == InBufferSize && outBuf.Length == BufferSize && inBuf != outBuf
    requires protocolVersion == 2 || protocolVersion == 3 ==>
      && WellFormedRequest(inBuf[..])
      && Readable(TypeNames.Classify(TP.CString(inBuf[..], 0)), [extraInt0, extraInt1, extraInt2, extraInt3], m)
    modifies inBuf, outBuf
    ensures protocolVersion != 2 && protocolVersion != 3 ==> outBuf[..] == old(outBuf[..])
    ensures protocolVersion == 2 || protocolVersion == 3 ==>
      var s := old(inBuf[..]);
      var fs := FieldStarts(s, 0, 5).value;
      var r := Request(protocolVersion, token, data, dumpChildren, [extraInt0, extraInt1, extraInt2, extraInt3],
                       TP.CString(s, fs[0]), TP.CString(s, fs[4]), TP.CString(s, fs[2]), TP.CString(s, fs[3]));
      var reply := ReplyText(Protocol23Nodes(Prepared(r), m));
      |reply| <= outBuf.Length && outBuf[..|reply|] == reply
  {
    if protocolVersion == 2 || protocolVersion == 3 {
      ghost var s := inBuf[..];
      var fs := ReadFieldStarts(inBuf);
      var d := new QDumper(outBuf);
      d.req := Request(protocolVersion, token, data, dumpChildren, [extraInt0, extraInt1, extraInt2, extraInt3],
                       TP.CString(inBuf[..], fs[0]), TP.CString(inBuf[..], fs[4]),
                       TP.CString(inBuf[..], fs[2]), TP.CString(inBuf[..], fs[3]));
      ghost var r := d.req;
      InnerTypeField(s);
      HandleProtocolVersion2and3(d, inBuf, fs[3], SkipField(s, fs[3]).value - 1, m);
      d.Finish();
    }
  }

  /** The fourth field, the inner type, is a C string ending at its NUL. */
  lemma InnerTypeField(s: seq<char>)
    requires WellFormedRequest(s)
    ensures var k := FieldStarts(s, 0, 5).value[3];
      && SkipField(s, k).Some?
      && FieldEndsAt(s, k, SkipField(s, k).value - 1)
  {
    FieldsSkip(s, 0, 5, 3);
    SkipFieldShape(s, FieldStarts(s, 0, 5).value[3]);
  }

  /** Every recorded field start is followed by a NUL inside the text. */
  lemma {:induction false} FieldsSkip(s: seq<char>, k: nat, n: nat, i: nat)
    requires FieldStarts(s, k, n).Some? && i < n
    decreases n
    ensures |FieldStarts(s, k, n).value| == n
    ensures SkipField(s, FieldStarts(s, k, n).value[i]).Some?
  {
    var k' := SkipField(s, k).value;
    if n > 1 {
      FieldsSkip(s, k', n - 1, if i == 0 then 0 else i - 1);
    }
  }
}
