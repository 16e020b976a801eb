/** The template parameters of an inner type. The debugger sends the parameters of
    a nested template joined by `@`, as in `QString@int`; `setupTemplateParameters`
    turns every `@` into a NUL so that the text splits into C strings, and records
    where each one starts. These are the string-level facts about that splitting. */
module TemplateParams {

  /** Where the parameters start: 0, and one past every `@`. */
  function Starts(s: string): (r: seq<nat>)
    ensures |r| >= 1 && r[0] == 0
  {
    if s == [] then [0]
    else if s[|s| - 1] == '@' then Starts(s[..|s| - 1]) + [|s|]
    else Starts(s[..|s| - 1])
  }

  /** The recorded starts are increasing positions, each right after an `@`, and no
      `@` follows the last one. */
  lemma {:induction false} StartsShape(s: string)
    ensures forall p :: 0 <= p < |Starts(s)| ==> Starts(s)[p] <= |s|
    ensures forall p :: 1 <= p < |Starts(s)| ==> 1 <= Starts(s)[p] && s[Starts(s)[p] - 1] == '@'
    ensures forall p, q :: 0 <= p < q < |Starts(s)| ==> Starts(s)[p] < Starts(s)[q]
    ensures forall i :: Starts(s)[|Starts(s)| - 1] <= i < |s| ==> s[i] != '@'
  {
    if s != [] {
      var s' := s[..|s| - 1];
      StartsShape(s');
      assert forall i :: 0 <= i < |s'| ==> s'[i] == s[i];
    }
  }

  /** Every recorded start lies within the text. */
  lemma StartBound(s: string, p: nat)
    requires p < |Starts(s)|
    ensures Starts(s)[p] <= |s|
  {
    StartsShape(s);
  }

  /** The text after the splitting: every `@` replaced by a NUL. */
  function Blank(s: string): (r: string)
    ensures |r| == |s|
    ensures forall i :: 0 <= i < |s| ==> r[i] == if s[i] == '@' then '\0' else s[i]
  {
    seq(|s|, i requires 0 <= i < |s| => if s[i] == '@' then '\0' else s[i])
  }

  /** The parameters themselves: the pieces between the `@`s. */
  function Split(s: string): (r: seq<string>)
    ensures |r| == |Starts(s)|
  {
    if s == [] then [""]
    else
      var init := Split(s[..|s| - 1]);
      var c := s[|s| - 1];
      if c == '@' then init + [""]
      else init[..|init| - 1] + [init[|init| - 1] + [c]]
  }

  /** Parameters joined back with `@`. */
  function JoinAt(ps: seq<string>): string
  {
    if ps == [] then ""
    else if |ps| == 1 then ps[0]
    else JoinAt(ps[..|ps| - 1]) + "@" + ps[|ps| - 1]
  }

  /** The C string at position `k`: the characters up to the first NUL or the end. */
  function CString(t: string, k: nat): string
    decreases |t| - k
  {
    if k >= |t| || t[k] == '\0' then "" else [t[k]] + CString(t, k + 1)
  }

  /** Splitting loses nothing: joining the parameters gives the text back. */
  lemma {:induction false} SplitJoin(s: string)
    ensures JoinAt(Split(s)) == s
  {
    if s != [] {
      var s' := s[..|s| - 1];
      var c := s[|s| - 1];
      var init := Split(s');
      SplitJoin(s');
      assert s == s' + [c];
      if c == '@' {
        assert (init + [""])[..|init|] == init;
      } else {
        var n := |init|;
        var r := init[..n - 1] + [init[n - 1] + [c]];
        JoinAtLast(init, init[n - 1] + [c]);
      }
    }
  }

  /** Extending the last parameter extends the joined text. */
  lemma JoinAtLast(ps: seq<string>, x: string)
    requires |ps| >= 1 && |x| >= |ps[|ps| - 1]| && x[..|ps[|ps| - 1]|] == ps[|ps| - 1]
    ensures JoinAt(ps[..|ps| - 1] + [x]) == JoinAt(ps) + x[|ps[|ps| - 1]|..]
  {
    var n := |ps|;
    var qs := ps[..n - 1] + [x];
    assert qs[..n - 1] == ps[..n - 1];
    if n == 1 {
      assert x == ps[0] + x[|ps[0]|..];
    } else {
      assert ps[..n - 1][..n - 2] == ps[..n - 2];
      assert x == ps[n - 1] + x[|ps[n - 1]|..];
    }
  }

  /** A C string ends at the first NUL: text after it does not matter. */
  lemma {:induction false} CStringStops(t: string, u: string, k: nat, j: nat)
    requires k <= j < |t| && t[j] == '\0'
    decreases j - k
    ensures CString(t + u, k) == CString(t, k)
  {
    if t[k] != '\0' {
      CStringStops(t, u, k + 1, j);
    }
  }

  /** A C string that runs to the end of `t` continues into what follows. */
  lemma {:induction false} CStringRuns(t: string, u: string, k: nat)
    requires k <= |t|
    requires forall i :: k <= i < |t| ==> t[i] != '\0'
    decreases |t| - k
    ensures CString(t + u, k) == CString(t, k) + CString(u, 0)
  {
    if k < |t| {
      CStringRuns(t, u, k + 1);
    } else {
      CStringFrom(t, u, 0);
    }
  }

  lemma {:induction false} CStringFrom(t: string, u: string, k: nat)
    requires k <= |u|
    decreases |u| - k
    ensures CString(t + u, |t| + k) == CString(u, k)
  {
    if k < |u| {
      assert (t + u)[|t| + k] == u[k];
      CStringFrom(t, u, k + 1);
    }
  }

  lemma BlankSnoc(s: string, c: char)
    ensures Blank(s + [c]) == Blank(s) + [if c == '@' then '\0' else c]
  {
  }

  /** Appending one character `d` to the blanked text: a C string that already
      stopped at a NUL is unchanged; the last one grows by `d` unless `d` is a NUL. */
  lemma ExtendSegment(s: string, p: nat, d: char)
    requires '\0' !in s
    requires p < |Starts(s)|
    ensures CString(Blank(s) + [d], Starts(s)[p])
      == if p < |Starts(s)| - 1 then CString(Blank(s), Starts(s)[p])
         else CString(Blank(s), Starts(s)[p]) + CString([d], 0)
  {
    var st := Starts(s);
    var b := Blank(s);
    StartsShape(s);
    if p < |st| - 1 {
      var q := p + 1;
      var j := st[q] - 1;
      assert s[j] == '@' && st[p] <= j;
      CStringStops(b, [d], st[p], j);
    } else {
      SegmentHasNoNul(s, p);
      CStringRuns(b, [d], st[p]);
    }
  }

  /** How `Split` changes when one character is appended. */
  lemma SplitSnoc(s: string, c: char, p: nat)
    requires p < |Starts(s + [c])|
    ensures Split(s + [c])[p]
      == if c == '@' then (if p < |Starts(s)| then Split(s)[p] else "")
         else if p < |Starts(s)| - 1 then Split(s)[p]
         else Split(s)[p] + [c]
  {
    assert (s + [c])[..|s|] == s;
  }

  lemma StartsSnoc(s: string, c: char)
    ensures Starts(s + [c]) == Starts(s) + (if c == '@' then [|s| + 1] else [])
  {
    var t := s + [c];
    assert t[|t| - 1] == c;
    assert t[..|t| - 1] == s;
  }

  /** Taking one more character of `s` into the prefix. */
  lemma PrefixSnoc(s: string, j: nat)
    requires j < |s|
    ensures Blank(s[..j + 1]) == Blank(s[..j]) + [if s[j] == '@' then '\0' else s[j]]
    ensures Starts(s[..j + 1]) == Starts(s[..j]) + (if s[j] == '@' then [j + 1] else [])
  {
    assert s[..j + 1] == s[..j] + [s[j]];
    BlankSnoc(s[..j], s[j]);
    StartsSnoc(s[..j], s[j]);
  }

  /** The heart of the splitting: after the `@`s became NULs, the C string starting
      at the `p`-th recorded position is exactly the `p`-th parameter. */
  lemma {:induction false} ParamsAreSegments(s: string, p: nat)
    requires '\0' !in s
    requires p < |Starts(s)|
    ensures CString(Blank(s), Starts(s)[p]) == Split(s)[p]
  {
    if s == [] {
      assert Blank(s) == [];
    } else {
      var s' := s[..|s| - 1];
      var c := s[|s| - 1];
      assert s == s' + [c];
      BlankSnoc(s', c);
      StartsSnoc(s', c);
      SplitSnoc(s', c, p);
      var d := if c == '@' then '\0' else c;
      if p < |Starts(s')| {
        ParamsAreSegments(s', p);
        ExtendSegment(s', p, d);
        if c != '@' {
          assert CString([d], 0) == [c];
        }
      } else {
        assert Starts(s)[p] == |s|;
      }
    }
  }

  /** The last parameter runs to the end of the text without meeting a NUL. */
  lemma SegmentHasNoNul(s: string, p: nat)
    requires '\0' !in s
    requires p == |Starts(s)| - 1
    ensures forall i :: Starts(s)[p] <= i < |s| ==> Blank(s)[i] != '\0'
  {
    StartsShape(s);
  }
  /** A C string read inside a NUL-terminated window of a larger buffer. */
  lemma {:induction false} CStringWindow(t: string, a: nat, b: nat, k: nat)
    requires a + k <= b < |t| && t[b] == '\0'
    decreases b - a - k
    ensures CString(t, a + k) == CString(t[a..b], k)
  {
    if a + k < b {
      assert t[a..b][k] == t[a + k];
      CStringWindow(t, a, b, k + 1);
    }
  }

  /** Size of the dumper's table of parameter positions (`maxTemplateParameters + 1`). */
  const SlotCount := 11

  /** The table slots `setupTemplateParameters` stores into, as written: the `k`-th
      `@` stores the position after it into slot `k`, with no check against the
      size of the table. */
  function StoreSlotsAsWritten(s: string): (r: seq<nat>)
  {
    if s == [] then []
    else
      var init := StoreSlotsAsWritten(s[..|s| - 1]);
      if s[|s| - 1] == '@' then init + [|init| + 1] else init
  }

  /** The `k`-th store goes to slot `k + 1`, one store per `@`. */
  lemma {:induction false} StoreSlotsCount(s: string)
    ensures |StoreSlotsAsWritten(s)| == |Starts(s)| - 1
    ensures forall k :: 0 <= k < |StoreSlotsAsWritten(s)| ==> StoreSlotsAsWritten(s)[k] == k + 1
  {
    if s != [] {
      var s' := s[..|s| - 1];
      StoreSlotsCount(s');
      StartsSnoc(s', s[|s| - 1]);
      assert s == s' + [s[|s| - 1]];
    }
  }

  /** With more than ten `@`s the source stores past the end of its table. */
  lemma StoreOverrun(s: string)
    requires |Starts(s)| > SlotCount
    ensures SlotCount in StoreSlotsAsWritten(s)
  {
    StoreSlotsCount(s);
    assert StoreSlotsAsWritten(s)[SlotCount - 1] == SlotCount;
  }

  /** A text of `n` separators has `n + 1` (empty) parameters. */
  lemma {:induction false} OnlySeparators(n: nat)
    ensures |Starts(seq(n, _ => '@'))| == n + 1
  {
    if n > 0 {
      var s := seq(n, _ => '@');
      OnlySeparators(n - 1);
      assert s == seq(n - 1, _ => '@') + ['@'];
      StartsSnoc(seq(n - 1, _ => '@'), '@');
    }
  }

  /** Eleven `@`s are enough to make the source store into slot 11 of an 11-slot table. */
  lemma ElevenSeparators()
    ensures SlotCount in StoreSlotsAsWritten(seq(11, _ => '@'))
  {
    OnlySeparators(11);
    StoreOverrun(seq(11, _ => '@'));
  }
}
