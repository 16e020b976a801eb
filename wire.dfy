/** The reply text of the dumper and the writer that produces it.

    A reply is a flat list of `key="value"` items, `{...}` hashes and
    `children=[...]` lists, separated by commas. The writer appends characters to
    a fixed buffer and stops appending once it has reached `FillLimit`, setting
    its `full` flag instead. A comma goes in front of a new entry exactly when the
    last character written closes a previous one (`}`, `"` or `]`).

    `Writer` is the value of the buffer's used part `out[..pos]` and the `full`
    flag; `Op` is the vocabulary the dumper's helpers are built from. */
module Wire {

  /** `sizeof(outBuffer)`. */
  const BufferSize: int := 1000000
  /** `checkFill` declares the buffer full at this position. */
  const FillLimit: int := BufferSize - 100

  datatype Writer = Writer(text: string, full: bool)

  /** The states a writer that only appends through `Put` can be in. */
  predicate Inv(w: Writer) {
    |w.text| <= FillLimit && (w.full ==> |w.text| == FillLimit)
  }

  /** `checkFill()` followed by the guarded store of `put(char)`. */
  function Put(w: Writer, c: char): (r: Writer)
    ensures Inv(w) ==> Inv(r)
    ensures r.text == w.text || r.text == w.text + [c]
  {
    if w.full || |w.text| >= FillLimit then Writer(w.text, true)
    else Writer(w.text + [c], false)
  }

  /** `put(const char *)`: the characters one by one. */
  function PutAll(w: Writer, s: string): (r: Writer)
    ensures Inv(w) ==> Inv(r)
  {
    if s == [] then w else Put(PutAll(w, s[..|s| - 1]), s[|s| - 1])
  }

  predicate IsCloser(c: char) { c == '}' || c == '"' || c == ']' }

  /** `putCommaIfNeeded()`, with its guard for an empty buffer. */
  function Comma(w: Writer): Writer
  {
    if |w.text| == 0 then w
    else if IsCloser(w.text[|w.text| - 1]) then Put(w, ',')
    else w
  }

  /** The two things the dumper's output helpers do. */
  datatype Op = Raw(s: string) | CommaIfNeeded

  function Step(w: Writer, op: Op): Writer
  {
    match op
    case Raw(s) => PutAll(w, s)
    case CommaIfNeeded => Comma(w)
  }

  /** The writer after a list of operations. */
  function Run(w: Writer, ops: seq<Op>): Writer
  {
    if ops == [] then w else Step(Run(w, ops[..|ops| - 1]), ops[|ops| - 1])
  }

  /** The text the operations would produce in a buffer without a limit. */
  function IdealComma(t: string): (u: string)
    ensures u == t || u == t + ","
  {
    if |t| > 0 && IsCloser(t[|t| - 1]) then t + "," else t
  }

  function IdealStep(t: string, op: Op): string
  {
    match op
    case Raw(s) => t + s
    case CommaIfNeeded => IdealComma(t)
  }

  function Ideal(t: string, ops: seq<Op>): string
  {
    if ops == [] then t else IdealStep(Ideal(t, ops[..|ops| - 1]), ops[|ops| - 1])
  }

  function Min(a: int, b: int): int { if a < b then a else b }

  /** What the buffer holds for an ideal text `t`: its first `FillLimit` characters,
      and the full flag set exactly when something was cut off. */
  function Observed(t: string): (w: Writer)
    ensures Inv(w)
    ensures w.text <= t
    ensures w.full <==> w.text != t
  {
    Writer(t[..Min(|t|, FillLimit)], |t| > FillLimit)
  }

  lemma PutObserved(t: string, c: char)
    ensures Put(Observed(t), c) == Observed(t + [c])
  {
    if |t| > FillLimit {
      assert (t + [c])[..FillLimit] == t[..FillLimit];
    } else if |t| == FillLimit {
      assert (t + [c])[..FillLimit] == t;
    } else {
      assert t[..|t|] == t;
    }
  }

  /** Writing characters one by one keeps the buffer equal to the clipped ideal text. */
  lemma {:induction false} PutAllObserved(t: string, s: string)
    ensures PutAll(Observed(t), s) == Observed(t + s)
  {
    if s != [] {
      var p := s[..|s| - 1];
      PutAllObserved(t, p);
      PutObserved(t + p, s[|s| - 1]);
      assert t + p + [s[|s| - 1]] == t + s;
    }
  }

  lemma CommaObserved(t: string)
    ensures Comma(Observed(t)) == Observed(IdealComma(t))
  {
    if |t| > FillLimit {
      PutObserved(t, ',');
      if IsCloser(t[|t| - 1]) {
      } else {
        var w := Observed(t);
        if |w.text| > 0 && IsCloser(w.text[|w.text| - 1]) {
          PutObserved(t, ',');
        }
      }
    } else {
      assert Observed(t).text == t;
      PutObserved(t, ',');
    }
  }

  /** The central property of the writer: whatever the dumper writes, the buffer holds
      the first `FillLimit` characters of the reply it meant to write, and `full` is
      set exactly when the reply did not fit. */
  lemma {:induction false} RunObserved(t: string, ops: seq<Op>)
    ensures Run(Observed(t), ops) == Observed(Ideal(t, ops))
  {
    if ops != [] {
      var init := ops[..|ops| - 1];
      RunObserved(t, init);
      match ops[|ops| - 1]
      case Raw(s) => PutAllObserved(Ideal(t, init), s);
      case CommaIfNeeded => CommaObserved(Ideal(t, init));
    }
  }

  /** Running two lists of operations one after the other is running their concatenation. */
  lemma {:induction false} RunAppend(w: Writer, a: seq<Op>, b: seq<Op>)
    ensures Run(w, a + b) == Run(Run(w, a), b)
  {
    if b != [] {
      var b' := b[..|b| - 1];
      RunAppend(w, a, b');
      assert (a + b)[..|a + b| - 1] == a + b';
    } else {
      assert a + b == a;
    }
  }

  lemma {:induction false} IdealAppend(t: string, a: seq<Op>, b: seq<Op>)
    ensures Ideal(t, a + b) == Ideal(Ideal(t, a), b)
  {
    if b != [] {
      var b' := b[..|b| - 1];
      IdealAppend(t, a, b');
      assert (a + b)[..|a + b| - 1] == a + b';
    } else {
      assert a + b == a;
    }
  }

  lemma {:induction false} PutAllAppend(w: Writer, s: string, u: string)
    ensures PutAll(w, s + u) == PutAll(PutAll(w, s), u)
  {
    if u != [] {
      var u' := u[..|u| - 1];
      PutAllAppend(w, s, u');
      assert (s + u)[..|s + u| - 1] == s + u';
    } else {
      assert s + u == s;
    }
  }

  // ---------------------------------------------------------------------------
  // The structure of a reply

  /** An entry of a reply. */
  datatype Node =
    | Item(key: string, value: string)
    | Hash(fields: seq<Node>)
    | Children(kids: seq<Node>)

  function Text(n: Node): (s: string)
    decreases n, 1
    ensures |s| > 0 && IsCloser(s[|s| - 1])
  {
    match n
    case Item(k, v) => k + "=\"" + v + "\""
    case Hash(fs) => "{" + Join(fs) + "}"
    case Children(ks) => "children=[" + Join(ks) + "]"
  }

  /** Entries separated by commas. */
  function Join(ns: seq<Node>): string
    decreases ns, 0
  {
    if ns == [] then ""
    else if |ns| == 1 then Text(ns[0])
    else Text(ns[0]) + "," + Join(ns[1..])
  }

  /** The helper calls that write one entry: `putItem`, `beginHash ... endHash`,
      `beginChildren ... endChildren`. */
  function NodeOps(n: Node): seq<Op>
    decreases n, 1
  {
    match n
    case Item(k, v) => [CommaIfNeeded, Raw(k + "=\"" + v + "\"")]
    case Hash(fs) => [CommaIfNeeded, Raw("{")] + NodesOps(fs) + [Raw("}")]
    case Children(ks) => [CommaIfNeeded, Raw("children=[")] + NodesOps(ks) + [Raw("]")]
  }

  function NodesOps(ns: seq<Node>): seq<Op>
    decreases ns, 0
  {
    if ns == [] then [] else NodeOps(ns[0]) + NodesOps(ns[1..])
  }

  lemma IdealOne(t: string, a: Op)
    ensures Ideal(t, [a]) == IdealStep(t, a)
  {
    assert [a][..0] == [];
  }

  lemma IdealPair(t: string, a: Op, b: Op)
    ensures Ideal(t, [a, b]) == IdealStep(IdealStep(t, a), b)
  {
    assert [a, b][..1] == [a];
    IdealOne(t, a);
  }

  /** Writing an entry adds a comma exactly when one is needed, then the entry's text. */
  lemma {:induction false} NodeEmit(t: string, n: Node)
    decreases n, 1
    ensures Ideal(t, NodeOps(n)) == IdealComma(t) + Text(n)
  {
    match n
    case Item(k, v) =>
      IdealPair(t, CommaIfNeeded, Raw(k + "=\"" + v + "\""));
    case Hash(fs) =>
      OpenEmit(t, "{", fs, "}");
      WrapRegroup(IdealComma(t), "{", Join(fs), "}");
    case Children(ks) =>
      OpenEmit(t, "children=[", ks, "]");
      WrapRegroup(IdealComma(t), "children=[", Join(ks), "]");
  }

  lemma WrapRegroup(p: string, open: string, j: string, close: string)
    ensures p + open + j + close == p + (open + j + close)
  {
  }

  /** An opener, the entries inside it without a leading comma, then the closer. */
  lemma {:induction false} OpenEmit(t: string, open: string, ns: seq<Node>, close: string)
    requires |open| > 0 && !IsCloser(open[|open| - 1])
    decreases ns, 2
    ensures Ideal(t, [CommaIfNeeded, Raw(open)] + NodesOps(ns) + [Raw(close)])
         == IdealComma(t) + open + Join(ns) + close
  {
    var head := [CommaIfNeeded, Raw(open)];
    var u := IdealComma(t) + open;
    IdealPair(t, CommaIfNeeded, Raw(open));
    IdealAppend(t, head, NodesOps(ns));
    NodesEmit(u, ns);
    assert IdealComma(u) == u;
    IdealAppend(t, head + NodesOps(ns), [Raw(close)]);
    IdealOne(u + Join(ns), Raw(close));
  }

  /** Writing a list of entries yields their comma-joined text, with a comma in front
      only when the text so far ends in a closer. */
  lemma {:induction false} NodesEmit(t: string, ns: seq<Node>)
    decreases ns, 1
    ensures Ideal(t, NodesOps(ns)) == if ns == [] then t else IdealComma(t) + Join(ns)
  {
    if ns != [] {
      var rest := ns[1..];
      var u := IdealComma(t) + Text(ns[0]);
      IdealAppend(t, NodeOps(ns[0]), NodesOps(rest));
      NodeEmit(t, ns[0]);
      assert Ideal(t, NodesOps(ns)) == Ideal(u, NodesOps(rest));
      NodesEmit(u, rest);
      if rest != [] {
        CommaAfter(IdealComma(t), Text(ns[0]));
        JoinCons(ns);
        CommaRegroup(IdealComma(t), Text(ns[0]), Join(rest));
      } else {
        assert Join(ns) == Text(ns[0]);
      }
    }
  }

  lemma JoinCons(ns: seq<Node>)
    requires |ns| >= 2
    ensures Join(ns) == Text(ns[0]) + "," + Join(ns[1..])
  {
  }

  lemma CommaRegroup(p: string, x: string, j: string)
    ensures p + x + "," + j == p + (x + "," + j)
  {
  }

  /** After an entry's text a comma is always due. */
  lemma CommaAfter(p: string, x: string)
    requires |x| > 0 && IsCloser(x[|x| - 1])
    ensures IdealComma(p + x) == p + x + ","
  {
    assert (p + x)[|p + x| - 1] == x[|x| - 1];
  }

  // ---------------------------------------------------------------------------
  // Composition

  lemma PutAllOne(w: Writer, c: char)
    ensures PutAll(w, [c]) == Put(w, c)
  {
    assert [c][..0] == [];
  }

  lemma PutAllSnoc(w: Writer, s: string, c: char)
    ensures PutAll(w, s + [c]) == Put(PutAll(w, s), c)
  {
    assert (s + [c])[..|s|] == s;
  }

  /** The four `put(char)` calls that write one base64 group. */
  lemma PutFour(w: Writer, q: string)
    requires |q| == 4
    ensures PutAll(w, q) == Put(Put(Put(Put(w, q[0]), q[1]), q[2]), q[3])
  {
    assert q == [q[0]] + [q[1]] + [q[2]] + [q[3]];
    PutAllOne(w, q[0]);
    PutAllSnoc(w, [q[0]], q[1]);
    PutAllSnoc(w, [q[0]] + [q[1]], q[2]);
    PutAllSnoc(w, [q[0]] + [q[1]] + [q[2]], q[3]);
  }

  lemma RunOne(w: Writer, op: Op)
    ensures Run(w, [op]) == Step(w, op)
  {
    assert [op][..0] == [];
  }

  lemma RunPair(w: Writer, a: Op, b: Op)
    ensures Run(w, [a, b]) == Step(Step(w, a), b)
  {
    assert [a, b][..1] == [a];
    RunOne(w, a);
  }

  lemma {:induction false} NodesOpsAppend(a: seq<Node>, b: seq<Node>)
    ensures NodesOps(a + b) == NodesOps(a) + NodesOps(b)
  {
    if a != [] {
      assert (a + b)[1..] == a[1..] + b;
      NodesOpsAppend(a[1..], b);
    } else {
      assert a + b == b;
    }
  }

  /** An ideal text a writer state can stand for. */
  function Unclip(w: Writer): string
  {
    if w.full then w.text + "?" else w.text
  }

  /** Every state allowed by `Inv` is the clipped form of some ideal text. */
  lemma InvObserved(w: Writer)
    requires Inv(w)
    ensures Observed(Unclip(w)) == w
  {
    if w.full {
      assert (w.text + "?")[..FillLimit] == w.text;
    } else {
      assert w.text[..|w.text|] == w.text;
    }
  }

  /** Two lists of operations meaning the same text do the same to the buffer. */
  lemma SameIdealSameRun(w: Writer, a: seq<Op>, b: seq<Op>)
    requires Inv(w)
    requires Ideal(Unclip(w), a) == Ideal(Unclip(w), b)
    ensures Run(w, a) == Run(w, b)
  {
    InvObserved(w);
    RunObserved(Unclip(w), a);
    RunObserved(Unclip(w), b);
  }

  /** Writing an entry piece by piece does what writing its text at once does. */
  lemma NodeFlat(w: Writer, n: Node)
    requires Inv(w)
    ensures Run(w, NodeOps(n)) == Run(w, [CommaIfNeeded, Raw(Text(n))])
  {
    NodeEmit(Unclip(w), n);
    IdealPair(Unclip(w), CommaIfNeeded, Raw(Text(n)));
    SameIdealSameRun(w, NodeOps(n), [CommaIfNeeded, Raw(Text(n))]);
  }
}
