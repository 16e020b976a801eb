/** The `QDumper` object: the state of one reply being written into the shared
    output buffer, and its output helpers. Each helper is specified by the list of
    `Wire.Op`s it performs, so that its effect on the buffer is `Wire.Run` of that
    list and its meaning is `Wire.Ideal` of it. */
module Dumper {
  import opened Wire
  import opened Base64
  import Decimal
  import TP = TemplateParams

  datatype Option<T> = None | Some(value: T)

  const MaxTemplateParameters: int := 10

  /** The arguments of a request, as `qDumpObjectData440` stores them in the dumper.
      The four strings are the C strings the request's fields point at. */
  datatype Request = Request(
    protocolVersion: int,
    token: int,
    data: nat,
    dumpChildren: bool,
    extraInt: seq<int>,
    outertype: string,
    iname: string,
    exp: string,
    innertype: string)

  /** One UTF-16 code unit of a `QString`. */
  newtype CodeUnit = x: int | 0 <= x < 0x1_0000

  /** The `2 * str.size()` bytes at `str.constData()` on a little-endian machine. */
  function Utf16Bytes(s: seq<CodeUnit>): (b: seq<Byte>)
    ensures |b| == 2 * |s|
  {
    if s == [] then []
    else [(s[0] as int % 0x100) as Byte, (s[0] as int / 0x100) as Byte] + Utf16Bytes(s[1..])
  }

  /** The text of a reply as the debugger reads it after the destructor ran: the
      marker in place of the first character, then a terminating NUL. */
  function Reply(w: Writer, success: bool): string
  {
    var t := w.text + ['\0'];
    if success then [if w.full then '+' else 't'] + t[1..] else t
  }

  const OpenHash: seq<Op> := [CommaIfNeeded, Raw("{")]
  const CloseHash: seq<Op> := [Raw("}")]
  const OpenChildren: seq<Op> := [CommaIfNeeded, Raw("children=[")]
  const CloseChildren: seq<Op> := [Raw("]")]

  /** The entry `putEllipsis` writes after a list that was cut short. */
  function EllipsisNode(innertype: string): Node
  {
    Hash([Item("name", "<incomplete>"), Item("value", ""), Item("type", innertype)])
  }

  /** The entry `putItemCount` writes. */
  function CountNode(name: string, count: int): Node
  {
    Item(name, "<" + Decimal.IntText(count) + " items>")
  }

  class QDumper {
    var out: array<char>
    var pos: int
    var full: bool
    var success: bool
    var req: Request
    var templateParameters: array<Option<nat>>

    predicate Valid()
      reads this
    {
      out.Length == BufferSize && 0 <= pos <= FillLimit && (full ==> pos == FillLimit)
      && templateParameters.Length == MaxTemplateParameters + 1
    }

    /** The used part of the buffer and the full flag. */
    function St(): (w: Writer)
      reads this, out
      requires Valid()
      ensures Inv(w)
    {
      Writer(out[..pos], full)
    }

    twostate predicate Kept()
      reads this
    {
      out == old(out) && success == old(success) && req == old(req)
      && templateParameters == old(templateParameters)
    }

    /** A dumper starts with the marker `f` ("not finished") and nothing else. */
    constructor (buffer: array<char>)
      requires buffer.Length == BufferSize
      modifies buffer
      ensures Valid() && out == buffer && !success && fresh(templateParameters)
      ensures St() == Observed("f")
    {
      out := buffer;
      pos := 1;
      full := false;
      success := false;
      req := Request(0, 0, 0, false, [0, 0, 0, 0], "", "", "", "");
      templateParameters := new Option<nat>[MaxTemplateParameters + 1](_ => None);
      new;
      buffer[0] := 'f';
      assert "f"[..1] == "f";
    }

    method CheckFill()
      requires Valid()
      modifies this
      ensures Valid() && Kept() && pos == old(pos)
      ensures full == (old(full) || pos >= FillLimit)
    {
      if pos >= FillLimit {
        full := true;
      }
    }

    /** `put(char)`: stores the character unless the buffer is full. */
    method Put(c: char)
      requires Valid()
      modifies this, out
      ensures Valid() && Kept()
      ensures St() == Wire.Put(old(St()), c)
    {
      CheckFill();
      if !full {
        out[pos] := c;
        pos := pos + 1;
      }
    }

    /** `put(const char *)`. */
    method PutString(s: string)
      requires Valid()
      modifies this, out
      ensures Valid() && Kept()
      ensures St() == PutAll(old(St()), s)
    {
      var i := 0;
      while i < |s|
        invariant 0 <= i <= |s|
        invariant Valid() && Kept()
        invariant St() == PutAll(old(St()), s[..i])
      {
        Put(s[i]);
        PutAllSnoc(old(St()), s[..i], s[i]);
        assert s[..i + 1] == s[..i] + [s[i]];
        i := i + 1;
      }
      assert s[..i] == s;
    }

    method PutCommaIfNeeded()
      requires Valid()
      modifies this, out
      ensures Valid() && Kept()
      ensures St() == Comma(old(St()))
    {
      if pos == 0 {
        return;
      }
      var c := out[pos - 1];
      if c == '}' || c == '"' || c == ']' {
        Put(',');
      }
    }

    /** `putBase64Encoded(buf, n)` with `n == |buf|`. */
    method PutBase64Encoded(buf: seq<Byte>)
      requires Valid()
      modifies this, out
      ensures Valid() && Kept()
      ensures St() == PutAll(old(St()), Encode(buf))
    {
      var padlen := 0;
      var i := 0;
      while i < |buf|
        invariant 0 <= i <= |buf|
        invariant i < |buf| ==> padlen == 0
        invariant Valid() && Kept()
        invariant PutAll(St(), Encode(buf[i..])) == PutAll(old(St()), Encode(buf))
      {
        i, padlen := PutChunk(buf, i);
      }
    }

    /** One round of the encoding loop: up to three bytes from `i0` on, written out
        as four characters, padded with `=` where bytes are missing. */
    method PutChunk(buf: seq<Byte>, i0: nat) returns (i: nat, padlen: int)
      requires Valid() && i0 < |buf|
      modifies this, out
      ensures Valid() && Kept()
      ensures i0 < i <= |buf| && (i < |buf| ==> padlen == 0)
      ensures PutAll(St(), Encode(buf[i..])) == PutAll(old(St()), Encode(buf[i0..]))
    {
      ghost var w := St();
      ghost var rest := buf[i0..];
      i := i0;
      padlen := 0;
      var chunk := buf[i] as int * 0x1_0000;
      i := i + 1;
      if i == |buf| {
        padlen := 2;
      } else {
        chunk := chunk + buf[i] as int * 0x100;
        i := i + 1;
        if i == |buf| {
          padlen := 1;
        } else {
          chunk := chunk + buf[i] as int;
          i := i + 1;
        }
      }
      var j := chunk / 0x4_0000;
      var k := (chunk / 0x1000) % 64;
      var l := (chunk / 64) % 64;
      var m := chunk % 64;
      Put(AlphabetChar(j));
      Put(AlphabetChar(k));
      Put(if padlen > 1 then PadChar else AlphabetChar(l));
      Put(if padlen > 0 then PadChar else AlphabetChar(m));
      Base64Step(w, rest, buf[i..], chunk, padlen);
    }

    method Disarm()
      requires Valid()
      modifies this
      ensures success && Valid() && St() == old(St())
      ensures out == old(out) && pos == old(pos) && full == old(full) && req == old(req)
      ensures templateParameters == old(templateParameters)
    {
      success := true;
    }

    method BeginHash()
      requires Valid()
      modifies this, out
      ensures Valid() && Kept()
      ensures St() == Run(old(St()), OpenHash)
    {
      PutCommaIfNeeded();
      Put('{');
      PutAllOne(Comma(old(St())), '{');
      RunPair(old(St()), CommaIfNeeded, Raw("{"));
    }

    method EndHash()
      requires Valid()
      modifies this, out
      ensures Valid() && Kept()
      ensures St() == Run(old(St()), CloseHash)
    {
      Put('}');
      PutAllOne(old(St()), '}');
      RunOne(old(St()), Raw("}"));
    }

    method BeginChildren()
      requires Valid()
      modifies this, out
      ensures Valid() && Kept()
      ensures St() == Run(old(St()), OpenChildren)
    {
      PutCommaIfNeeded();
      PutString("children=[");
      RunPair(old(St()), CommaIfNeeded, Raw("children=["));
    }

    method EndChildren()
      requires Valid()
      modifies this, out
      ensures Valid() && Kept()
      ensures St() == Run(old(St()), CloseChildren)
    {
      Put(']');
      PutAllOne(old(St()), ']');
      RunOne(old(St()), Raw("]"));
    }

    /** `beginItem(name)`: the key and the opening quote of its value. */
    method BeginItem(name: string)
      requires Valid()
      modifies this, out
      ensures Valid() && Kept()
      ensures St() == Run(old(St()), [CommaIfNeeded, Raw(name + "=\"")])
    {
      PutCommaIfNeeded();
      PutString(name);
      PutString("=\"");
      PutAllAppend(Comma(old(St())), name, "=\"");
      RunPair(old(St()), CommaIfNeeded, Raw(name + "=\""));
    }

    method EndItem()
      requires Valid()
      modifies this, out
      ensures Valid() && Kept()
      ensures St() == Run(old(St()), [Raw("\"")])
    {
      Put('"');
      PutAllOne(old(St()), '"');
      RunOne(old(St()), Raw("\""));
    }

    /** `putItem(name, value)` for a value that is written as it is. */
    method PutItem(name: string, value: string)
      requires Valid()
      modifies this, out
      ensures Valid() && Kept()
      ensures St() == Run(old(St()), NodeOps(Item(name, value)))
    {
      ghost var w1 := Comma(old(St()));
      BeginItem(name);
      RunPair(old(St()), CommaIfNeeded, Raw(name + "=\""));
      PutString(value);
      PutAllAppend(w1, name + "=\"", value);
      Put('"');
      PutAllSnoc(w1, name + "=\"" + value, '"');
      assert name + "=\"" + value + ['"'] == name + "=\"" + value + "\"";
      RunPair(old(St()), CommaIfNeeded, Raw(name + "=\"" + value + "\""));
    }

    /** `putItem(name, number)`. The digits go through `put(char)` one by one; the
        `sprintf`-based `put` overloads ignore the full flag (see `Findings`). */
    method PutItemNumber(name: string, value: int)
      requires Valid()
      modifies this, out
      ensures Valid() && Kept()
      ensures St() == Run(old(St()), NodeOps(Item(name, Decimal.IntText(value))))
    {
      PutItem(name, Decimal.IntText(value));
    }

    /** `putItem(name, value)` for a `QByteArray` or `QString` value: the bytes in base64. */
    method PutItemEncoded(name: string, bytes: seq<Byte>)
      requires Valid()
      modifies this, out
      ensures Valid() && Kept()
      ensures St() == Run(old(St()), NodeOps(Item(name, Encode(bytes))))
    {
      ghost var w1 := Comma(old(St()));
      BeginItem(name);
      RunPair(old(St()), CommaIfNeeded, Raw(name + "=\""));
      PutBase64Encoded(bytes);
      PutAllAppend(w1, name + "=\"", Encode(bytes));
      Put('"');
      PutAllSnoc(w1, name + "=\"" + Encode(bytes), '"');
      assert name + "=\"" + Encode(bytes) + ['"'] == name + "=\"" + Encode(bytes) + "\"";
      RunPair(old(St()), CommaIfNeeded, Raw(name + "=\"" + Encode(bytes) + "\""));
    }

    /** `putItemCount(name, count)`: `name="<count items>"`. */
    method PutItemCount(name: string, count: int)
      requires Valid()
      modifies this, out
      ensures Valid() && Kept()
      ensures St() == Run(old(St()), NodeOps(CountNode(name, count)))
    {
      var digits := Decimal.IntText(count);
      ghost var w1 := Comma(old(St()));
      PutCommaIfNeeded();
      PutString(name);
      PutString("=\"<");
      PutString(digits);
      PutString(" items>\"");
      CountPieces(w1, name, digits);
      RunPair(old(St()), CommaIfNeeded, Raw(name + "=\"" + ("<" + digits + " items>") + "\""));
    }

    /** `putEllipsis()`: an entry `{name="<incomplete>",value="",type="T"}` for the
        inner type `T`, written as raw text. */
    method PutEllipsis()
      requires Valid()
      modifies this, out
      ensures Valid() && Kept()
      ensures St() == Run(old(St()), NodeOps(EllipsisNode(req.innertype)))
    {
      var head := EllipsisHead;
      ghost var w1 := Comma(old(St()));
      PutCommaIfNeeded();
      PutString(head);
      PutString(req.innertype);
      PutAllAppend(w1, head, req.innertype);
      PutString("\"}");
      PutAllAppend(w1, head + req.innertype, "\"}");
      EllipsisText(req.innertype);
      RunPair(old(St()), CommaIfNeeded, Raw(Text(EllipsisNode(req.innertype))));
      NodeFlat(old(St()), EllipsisNode(req.innertype));
    }

    /** `setupTemplateParameters`, with the store into the table bounded: the inner
        type, a C string at `start` in the request buffer `buf`, is cut at its `@`s
        in place, and slot `p` of the table records where parameter `p` starts; the
        slots past the last parameter are empty. */
    method SetupTemplateParameters(buf: array<char>, start: nat, ghost end: nat)
      requires Valid() && buf != out
      requires start <= end < buf.Length && buf[end] == '\0' && '\0' !in buf[start..end]
      modifies this, buf, templateParameters
      ensures Valid() && St() == old(St())
      ensures out == old(out) && success == old(success) && templateParameters == old(templateParameters)
      ensures req == old(req).(innertype := TP.Split(old(buf[start..end]))[0])
      ensures buf[..start] == old(buf[..start]) && buf[end..] == old(buf[end..])
      ensures buf[start..end] == TP.Blank(old(buf[start..end]))
      ensures forall p :: 0 <= p < templateParameters.Length ==>
        templateParameters[p] ==
          if p < |TP.Starts(old(buf[start..end]))|
          then Some(start + TP.Starts(old(buf[start..end]))[p]) else None
      ensures forall p :: 0 <= p < templateParameters.Length && templateParameters[p].Some? ==>
        templateParameters[p].value <= buf.Length &&
        TP.CString(buf[..], templateParameters[p].value) == TP.Split(old(buf[start..end]))[p]
    {
      ghost var S := buf[start..end];
      var tp := templateParameters;
      ResetSlots(tp, start);
      var count := CutParameters(buf, tp, start, end);
      ClearUnused(tp, count, start, TP.Starts(S));
      req := req.(innertype := TP.CString(buf[..], start));
      ParamsRead(buf[..], start, end, S);
      RecordedFinal(tp[..], start, S);
      SlotsRead(tp[..], buf[..], start, end, S);
    }

    /** The destructor: a terminating NUL, then the marker `t` (complete) or `+`
        (truncated) if the reply was disarmed; a reply never disarmed keeps `f`. */
    method Finish()
      requires Valid()
      modifies this, out
      ensures out == old(out) && pos == old(pos) + 1
      ensures out[..pos] == Reply(old(St()), success)
      ensures success == old(success)
    {
      ghost var w := St();
      out[pos] := '\0';
      pos := pos + 1;
      assert out[..pos] == w.text + ['\0'];
      if success {
        out[0] := if full then '+' else 't';
        assert out[..pos] == [out[0]] + (w.text + ['\0'])[1..];
      }
    }
  }

  /** The scanning loop of `setupTemplateParameters`: cuts the inner type at its
      `@`s and stores where each parameter starts into the next slot of the table,
      while there is one. */
  /** The first slot holds the start of the text, the others nothing yet. */
  method ResetSlots(tp: array<Option<nat>>, start: nat)
    requires tp.Length == TP.SlotCount
    modifies tp
    ensures tp[0] == Some(start) && forall p :: 1 <= p < tp.Length ==> tp[p] == None
  {
    tp[0] := Some(start);
    for i := 1 to MaxTemplateParameters + 1
      invariant tp[0] == Some(start)
      invariant forall p :: 1 <= p < i ==> tp[p] == None
    {
      tp[i] := None;
    }
  }

  /** Clearing the slots after the last parameter found changes nothing: they are
      empty already. */
  method ClearUnused(tp: array<Option<nat>>, count: nat, ghost start: nat, ghost P: seq<nat>)
    requires tp.Length == TP.SlotCount && count == Min(|P|, TP.SlotCount)
    requires Recorded(tp[..], start, count, P)
    modifies tp
    ensures tp[..] == old(tp[..])
  {
    var c := count;
    while c < MaxTemplateParameters
      invariant c >= count && tp[..] == old(tp[..])
    {
      assert tp[c] == None;
      tp[c] := None;
      c := c + 1;
    }
  }

  method CutParameters(buf: array<char>, tp: array<Option<nat>>, start: nat, ghost end: nat)
    returns (count: nat)
    requires start <= end < buf.Length && buf[end] == '\0' && '\0' !in buf[start..end]
    requires tp.Length == TP.SlotCount && tp[0] == Some(start)
    requires forall p :: 1 <= p < tp.Length ==> tp[p] == None
    modifies buf, tp
    ensures buf[..start] == old(buf[..start]) && buf[end..] == old(buf[end..])
    ensures buf[start..end] == TP.Blank(old(buf[start..end]))
    ensures count == Min(|TP.Starts(old(buf[start..end]))|, TP.SlotCount)
    ensures Recorded(tp[..], start, count, TP.Starts(old(buf[start..end])))
  {
    ghost var S := buf[start..end];
    ghost var b0 := buf[..];
    var s := start;
    count := 1;
    ghost var P := TP.Starts(S[..0]);
    assert S[..0] == [];
    assert Recorded(tp[..], start, count, P);
    ScanStart(b0, start, end);
    while buf[s] != '\0'
      invariant Progress(buf[..], tp[..], b0, start, s, end, S, count, P)
      decreases end - s
    {
      s, count, P := NextParameter(buf, tp, b0, start, s, end, S, count, P);
    }
    ScanDone(buf[..], b0, start, s, end, S);
  }

  /** Where the scan stands: the buffer cut up to `s`, and the table holding the
      starts of the parameters found so far, as many as fit. */
  ghost predicate Progress(b: seq<char>, t: seq<Option<nat>>, b0: seq<char>, start: nat, s: nat,
                           end: nat, S: string, count: nat, P: seq<nat>)
  {
    Scanned(b, b0, start, s, end, S) && P == TP.Starts(S[..s - start])
    && count == Min(|P|, TP.SlotCount) && Recorded(t, start, count, P)
  }

  /** One round of the scanning loop: past the next parameter, cutting the `@` that
      ends it and recording where the one after it starts. */
  method NextParameter(buf: array<char>, tp: array<Option<nat>>, ghost b0: seq<char>, start: nat, s0: nat,
                       ghost end: nat, ghost S: string, count0: nat, ghost P0: seq<nat>)
    returns (s: nat, count: nat, ghost P: seq<nat>)
    requires Progress(buf[..], tp[..], b0, start, s0, end, S, count0, P0) && buf[s0] != '\0'
    modifies buf, tp
    ensures s0 < s && Progress(buf[..], tp[..], b0, start, s, end, S, count, P)
  {
    s := SkipToSeparator(buf, tp, b0, start, s0, end, S, count0, P0);
    count, P := count0, P0;
    if buf[s] != '\0' {
      s, count, P := CutParameter(buf, tp, b0, start, s, end, S, count, P);
    }
  }

  /** The inner scanning loop: moves past the characters of the current parameter,
      up to the next `@` or the terminating NUL. */
  method SkipToSeparator(buf: array<char>, tp: array<Option<nat>>, ghost b0: seq<char>, start: nat, s0: nat,
                         ghost end: nat, ghost S: string, ghost count: nat, ghost P: seq<nat>)
    returns (s: nat)
    requires Progress(buf[..], tp[..], b0, start, s0, end, S, count, P) && buf[s0] != '\0'
    ensures s0 <= s && Progress(buf[..], tp[..], b0, start, s, end, S, count, P)
    ensures buf[s] == '@' || (buf[s] == '\0' && s0 < s)
  {
    s := s0;
    while buf[s] != '\0' && buf[s] != '@'
      invariant s0 <= s && Progress(buf[..], tp[..], b0, start, s, end, S, count, P)
      invariant s == s0 ==> buf[s] != '\0'
      decreases end - s
    {
      ScanStep(buf[..], b0, start, s, end, S);
      s := s + 1;
    }
  }

  /** The `@` at `s0` ends a parameter: it becomes a NUL, and the start of the next
      parameter goes into the table. */
  method CutParameter(buf: array<char>, tp: array<Option<nat>>, ghost b0: seq<char>, start: nat, s0: nat,
                      ghost end: nat, ghost S: string, count0: nat, ghost P0: seq<nat>)
    returns (s: nat, count: nat, ghost P: seq<nat>)
    requires Progress(buf[..], tp[..], b0, start, s0, end, S, count0, P0) && buf[s0] == '@'
    modifies buf, tp
    ensures s == s0 + 1 && Progress(buf[..], tp[..], b0, start, s, end, S, count, P)
  {
    CutAt(buf, tp, b0, start, s0, end, S);
    s := s0 + 1;
    ghost var b := buf[..];
    count := RecordStart(tp, buf, start, count0, P0, s - start);
    P := P0 + [s - start];
    assert buf[..] == b;
    ProgressAfterCut(b, tp[..], b0, start, s0, end, S, count, P0);
  }

  /** After the cut at `s0` and the new start recorded, the scan has progressed. */
  lemma ProgressAfterCut(b: seq<char>, t: seq<Option<nat>>, b0: seq<char>, start: nat, s0: nat,
                         end: nat, S: string, count: nat, P0: seq<nat>)
    requires s0 < end && Scanned(b, b0, start, s0 + 1, end, S)
    requires start <= s0 && P0 == TP.Starts(S[..s0 - start])
    requires TP.Starts(S[..s0 + 1 - start]) == TP.Starts(S[..s0 - start]) + [s0 + 1 - start]
    requires count == Min(|P0 + [s0 + 1 - start]|, TP.SlotCount)
    requires Recorded(t, start, count, P0 + [s0 + 1 - start])
    ensures Progress(b, t, b0, start, s0 + 1, end, S, count, P0 + [s0 + 1 - start])
  {
  }

  /** An `@` of the inner type becomes a NUL, ending the current parameter. */
  method CutAt(buf: array<char>, tp: array<Option<nat>>, ghost b0: seq<char>, start: nat, s: nat, ghost end: nat, ghost S: string)
    requires Scanned(buf[..], b0, start, s, end, S) && buf[s] == '@'
    modifies buf
    ensures tp[..] == old(tp[..])
    ensures s < end && Scanned(buf[..], b0, start, s + 1, end, S)
    ensures TP.Starts(S[..s + 1 - start]) == TP.Starts(S[..s - start]) + [s + 1 - start]
  {
    ghost var b := buf[..];
    CutStep(b, b0, start, s, end, S);
    buf[s] := '\0';
    assert buf[..] == b[s := '\0'];
  }

  /** The parameter found at offset `x` has its start stored into the next slot of
      the table, if there is one left. */
  method RecordStart(tp: array<Option<nat>>, buf: array<char>, start: nat, count: nat, ghost P: seq<nat>, x: nat)
    returns (count': nat)
    requires Recorded(tp[..], start, count, P) && count == Min(|P|, TP.SlotCount)
    modifies tp
    ensures buf[..] == old(buf[..])
    ensures Recorded(tp[..], start, count', P + [x]) && count' == Min(|P + [x]|, TP.SlotCount)
  {
    ghost var t := tp[..];
    count' := count;
    if count <= MaxTemplateParameters {
      tp[count] := Some(start + x);
      count' := count + 1;
    }
    RecordCut(t, tp[..], start, count, count', P, x);
  }

  /** The request buffer while the inner type is being cut: outside the type nothing
      has changed, before `s` its `@`s are NULs, from `s` on it is untouched. */
  ghost predicate Scanned(b: seq<char>, b0: seq<char>, start: nat, s: nat, end: nat, S: string)
  {
    start <= s <= end < |b| == |b0| && b0[end] == '\0' && S == b0[start..end] && '\0' !in S
    && b[..start] == b0[..start] && b[end..] == b0[end..]
    && b[start..s] == TP.Blank(S[..s - start]) && b[s..end] == S[s - start..]
  }

  /** The table holding the first `count` parameter starts, as buffer positions. */
  ghost function Table(start: nat, count: nat, P: seq<nat>): (t: seq<Option<nat>>)
    requires count <= |P|
    ensures |t| == TP.SlotCount
  {
    seq(TP.SlotCount, p requires 0 <= p < TP.SlotCount => if p < count then Some(start + P[p]) else None)
  }

  ghost predicate Recorded(t: seq<Option<nat>>, start: nat, count: nat, P: seq<nat>)
  {
    count <= |P| && t == Table(start, count, P)
  }

  lemma ScanStart(b0: seq<char>, start: nat, end: nat)
    requires start <= end < |b0| && b0[end] == '\0' && '\0' !in b0[start..end]
    ensures Scanned(b0, b0, start, start, end, b0[start..end])
  {
    assert b0[start..end][..0] == [];
  }

  /** What the scan reads at `s`: the next character of the inner type, or its NUL. */
  lemma ScanReads(b: seq<char>, b0: seq<char>, start: nat, s: nat, end: nat, S: string)
    requires Scanned(b, b0, start, s, end, S)
    ensures s < end ==> b[s] == S[s - start]
    ensures s == end ==> b[s] == '\0'
  {
    if s < end {
      assert b[s] == b[s..end][0];
    } else {
      assert b[s] == b[end..][0];
    }
  }

  /** One character of the inner type that is neither NUL nor `@` is passed over. */
  lemma ScanStep(b: seq<char>, b0: seq<char>, start: nat, s: nat, end: nat, S: string)
    requires Scanned(b, b0, start, s, end, S) && b[s] != '\0' && b[s] != '@'
    ensures s < end && Scanned(b, b0, start, s + 1, end, S)
    ensures TP.Starts(S[..s + 1 - start]) == TP.Starts(S[..s - start])
  {
    ScanReads(b, b0, start, s, end, S);
    TP.PrefixSnoc(S, s - start);
    ScanBuffer(b, start, s, end, S);
  }

  lemma ScanBuffer(b: seq<char>, start: nat, s: nat, end: nat, S: string)
    requires start <= s < end < |b| && |S| == end - start && b[s..end] == S[s - start..]
    ensures b[start..s + 1] == b[start..s] + [b[s]]
    ensures b[s + 1..end] == S[s + 1 - start..]
  {
    assert b[s + 1..end] == b[s..end][1..];
    assert S[s + 1 - start..] == S[s - start..][1..];
  }

  /** An `@` of the inner type is overwritten with a NUL and a new parameter starts after it. */
  lemma CutStep(b: seq<char>, b0: seq<char>, start: nat, s: nat, end: nat, S: string)
    requires Scanned(b, b0, start, s, end, S) && b[s] != '\0' && b[s] == '@'
    ensures s < end && Scanned(b[s := '\0'], b0, start, s + 1, end, S)
    ensures TP.Starts(S[..s + 1 - start]) == TP.Starts(S[..s - start]) + [s + 1 - start]
  {
    ScanReads(b, b0, start, s, end, S);
    TP.PrefixSnoc(S, s - start);
    CutBuffer(b, start, s, end);
    ScanBuffer(b, start, s, end, S);
  }

  lemma CutBuffer(b: seq<char>, start: nat, s: nat, end: nat)
    requires start <= s < end < |b|
    ensures b[s := '\0'][start..s + 1] == b[start..s] + ['\0']
    ensures b[s := '\0'][s + 1..end] == b[s + 1..end]
    ensures b[s := '\0'][..start] == b[..start] && b[s := '\0'][end..] == b[end..]
  {
  }

  /** The scan stops only at the NUL that ends the inner type. */
  lemma ScanDone(b: seq<char>, b0: seq<char>, start: nat, s: nat, end: nat, S: string)
    requires Scanned(b, b0, start, s, end, S) && b[s] == '\0'
    ensures s == end && S[..s - start] == S
    ensures b[..start] == b0[..start] && b[end..] == b0[end..] && b[start..end] == TP.Blank(S)
  {
  }

  /** When the scan is over, the table holds every parameter that fits. */
  lemma RecordedFinal(t: seq<Option<nat>>, start: nat, S: string)
    requires Recorded(t, start, Min(|TP.Starts(S)|, TP.SlotCount), TP.Starts(S))
    ensures forall p :: 0 <= p < |t| ==>
      t[p] == if p < |TP.Starts(S)| then Some(start + TP.Starts(S)[p]) else None
  {
  }

  /** ... and each recorded position reads back as its parameter. */
  lemma SlotsRead(t: seq<Option<nat>>, b: seq<char>, start: nat, end: nat, S: string)
    requires forall p :: 0 <= p < |t| ==>
      t[p] == if p < |TP.Starts(S)| then Some(start + TP.Starts(S)[p]) else None
    requires start <= end < |b| && b[end] == '\0' && '\0' !in S && b[start..end] == TP.Blank(S)
    ensures forall p :: 0 <= p < |t| && t[p].Some? ==>
      t[p].value <= |b| && TP.CString(b, t[p].value) == TP.Split(S)[p]
  {
    ParamsRead(b, start, end, S);
    forall p | 0 <= p < |t| && t[p].Some?
      ensures t[p].value <= |b| && TP.CString(b, t[p].value) == TP.Split(S)[p]
    {
      assert p < |TP.Starts(S)|;
      TP.StartBound(S, p);
    }
  }

  /** A new parameter found at offset `x`: its start goes into the next slot if
      there is one; otherwise the table stays as it is. */
  lemma RecordCut(t: seq<Option<nat>>, t': seq<Option<nat>>, start: nat, count: nat, count': nat,
                  P: seq<nat>, x: nat)
    requires Recorded(t, start, count, P) && count == Min(|P|, TP.SlotCount)
    requires count < TP.SlotCount ==> t' == t[count := Some(start + x)] && count' == count + 1
    requires count >= TP.SlotCount ==> t' == t && count' == count
    ensures Recorded(t', start, count', P + [x]) && count' == Min(|P + [x]|, TP.SlotCount)
  {
  }

  /** Once the inner type is cut, each recorded start reads back as its parameter. */
  lemma ParamsRead(b: seq<char>, start: nat, end: nat, S: string)
    requires start <= end < |b| && b[end] == '\0' && '\0' !in S
    requires b[start..end] == TP.Blank(S)
    ensures forall p :: 0 <= p < |TP.Starts(S)| ==>
      TP.CString(b, start + TP.Starts(S)[p]) == TP.Split(S)[p]
  {
    forall p | 0 <= p < |TP.Starts(S)|
      ensures TP.CString(b, start + TP.Starts(S)[p]) == TP.Split(S)[p]
    {
      ParamRead(b, start, end, S, p);
    }
  }

  lemma ParamRead(b: seq<char>, start: nat, end: nat, S: string, p: nat)
    requires start <= end < |b| && b[end] == '\0' && '\0' !in S
    requires b[start..end] == TP.Blank(S) && p < |TP.Starts(S)|
    ensures TP.CString(b, start + TP.Starts(S)[p]) == TP.Split(S)[p]
  {
    TP.StartBound(S, p);
    TP.CStringWindow(b, start, end, TP.Starts(S)[p]);
    TP.ParamsAreSegments(S, p);
  }

  /** The four pieces `putItemCount` writes make up one item. */
  lemma CountPieces(w: Writer, name: string, digits: string)
    ensures PutAll(PutAll(PutAll(PutAll(w, name), "=\"<"), digits), " items>\"")
         == PutAll(w, name + "=\"" + ("<" + digits + " items>") + "\"")
  {
    PutAllAppend(w, name, "=\"<");
    PutAllAppend(w, name + "=\"<", digits);
    PutAllAppend(w, name + "=\"<" + digits, " items>\"");
    assert name + "=\"<" + digits + " items>\"" == name + "=\"" + ("<" + digits + " items>") + "\"";
  }

  lemma JoinThree(a: Node, b: Node, c: Node)
    ensures Join([a, b, c]) == Text(a) + "," + Text(b) + "," + Text(c)
  {
    assert [a, b, c][1..] == [b, c];
    assert [b, c][1..] == [c];
    assert Join([c]) == Text(c);
    assert Join([b, c]) == Text(b) + "," + Join([c]);
    assert Join([a, b, c]) == Text(a) + "," + Join([b, c]);
  }

  const EllipsisHead: string := "{name=\"<incomplete>\",value=\"\",type=\""

  lemma EllipsisHeadParts()
    ensures EllipsisHead == "{" + Text(Item("name", "<incomplete>")) + "," + Text(Item("value", "")) + ",type=\""
  {
    LiteralHead();
    ItemText("name", "<incomplete>");
    ItemText("value", "");
  }

  lemma ItemText(k: string, v: string)
    ensures Text(Item(k, v)) == k + "=\"" + v + "\""
  {
  }

  lemma LiteralHead()
    ensures EllipsisHead == "{" + ("name" + "=\"" + "<incomplete>" + "\"") + "," + ("value" + "=\"" + "" + "\"") + ",type=\""
  {
  }

  lemma EllipsisText(t: string)
    ensures Text(EllipsisNode(t)) == EllipsisHead + t + "\"}"
  {
    var a, b, c := Item("name", "<incomplete>"), Item("value", ""), Item("type", t);
    JoinThree(a, b, c);
    EllipsisHeadParts();
    var k, q := "type=\"", "\"";
    assert Text(c) == k + t + q;
    assert ",type=\"" == "," + k;
    assert "\"}" == q + "}";
    Regroup7("{", Text(a), ",", Text(b), k, t, q, "}");
  }

  /** The bracketing that turns the joined entries into the ellipsis head and its tail. */
  lemma Regroup7(o: string, x: string, m: string, y: string, k: string, t: string, q: string, c: string)
    ensures o + (x + m + y + m + (k + t + q)) + c == (o + x + m + y + (m + k)) + t + (q + c)
  {
  }

  /** One round of the base64 loop: the four characters written are the group's
      quad, and what is left to write is the encoding of the remaining bytes. */
  lemma Base64Step(w: Writer, rest: seq<Byte>, after: seq<Byte>, chunk: int, padlen: int)
    requires |rest| >= 1
    requires |rest| >= 3 ==> after == rest[3..] && padlen == 0
                              && chunk == Chunk(rest[0], rest[1], rest[2])
    requires |rest| == 2 ==> after == [] && padlen == 1 && chunk == Chunk(rest[0], rest[1], 0)
    requires |rest| == 1 ==> after == [] && padlen == 2 && chunk == Chunk(rest[0], 0, 0)
    ensures 0 <= chunk < 0x100_0000
    ensures PutAll(Put(Put(Put(Put(w,
              AlphabetChar(chunk / 0x4_0000)),
              AlphabetChar((chunk / 0x1000) % 64)),
              if padlen > 1 then PadChar else AlphabetChar((chunk / 64) % 64)),
              if padlen > 0 then PadChar else AlphabetChar(chunk % 64)),
            Encode(after))
         == PutAll(w, Encode(rest))
  {
    var q := Quad(chunk, padlen);
    PutFour(w, q);
    PutAllAppend(w, q, Encode(after));
    assert Encode(rest) == q + Encode(after);
  }

  // ---------------------------------------------------------------------------
  // Finding: the sprintf-based number output

  /** `put(int)` and the other numeric overloads as written: `checkFill()`, then
      `sprintf` at `pos` whether or not the buffer is full. */
  function PutNumberAsWritten(w: Writer, i: int): Writer
  {
    Writer(w.text + Decimal.IntText(i), w.full || |w.text| >= FillLimit)
  }

  /** `putItem("name", i)` as written, for `i` from `lo` up to `hi`: the per-child
      name item of a container's children loop. */
  function NameItemsAsWritten(w: Writer, lo: int, hi: int): Writer
    decreases hi - lo
  {
    if lo >= hi then w
    else
      var w1 := PutAll(Comma(w), "name=\"");
      var w2 := Wire.Put(PutNumberAsWritten(w1, lo), '"');
      NameItemsAsWritten(w2, lo + 1, hi)
  }

  lemma {:induction false} PutAllWhenFull(w: Writer, s: string)
    requires w.full
    ensures PutAll(w, s) == w
  {
    if s != [] {
      PutAllWhenFull(w, s[..|s| - 1]);
    }
  }

  /** Once the buffer is full, every child from 900 to 999 still adds its three
      index digits. */
  lemma {:induction false} NameItemsGrow(w: Writer, lo: int)
    requires w.full && 100 <= lo <= 1000
    decreases 1000 - lo
    ensures NameItemsAsWritten(w, lo, 1000).full
    ensures |NameItemsAsWritten(w, lo, 1000).text| == |w.text| + 3 * (1000 - lo)
  {
    if lo < 1000 {
      PutAllWhenFull(Comma(w), "name=\"");
      Decimal.ThreeDigits(lo);
      var w2 := Wire.Put(PutNumberAsWritten(PutAll(Comma(w), "name=\""), lo), '"');
      NameItemsGrow(w2, lo + 1);
    }
  }

  /** The discrepancy: starting from a full buffer, the children 900..999 of a list
      drive `pos` to 300 characters past the fill limit, 200 past the end of the
      1,000,000-character output buffer. The same calls through `put(char)` leave
      the buffer as it was. */
  lemma NumberOverrun(w: Writer)
    requires Inv(w) && w.full
    ensures |NameItemsAsWritten(w, 900, 1000).text| == BufferSize + 200
  {
    NameItemsGrow(w, 900);
  }

  /** The corrected output of a number item leaves a full buffer as it is. */
  lemma NumberWhenFull(w: Writer, name: string, i: int)
    requires w.full
    ensures Run(w, NodeOps(Item(name, Decimal.IntText(i)))) == w
  {
    var text := name + "=\"" + Decimal.IntText(i) + "\"";
    RunPair(w, CommaIfNeeded, Raw(text));
    PutAllWhenFull(Comma(w), text);
  }
}
