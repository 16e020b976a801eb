/** The two pieces of Qt string handling the device wizard and the Python indenter
    depend on: `QChar::isSpace` (also what `\s` matches in a `QRegExp`) and
    `QString::trimmed`. */
module QtText {

  /** `QChar::isSpace` in Qt 4: the control characters TAB, LF, VT, FF and CR, and
      every character of the Unicode categories Zs, Zl and Zp (Unicode 5.0). */
  predicate IsSpace(c: char)
  {
    ('\t' <= c <= '\r') || c == ' ' || c == '\U{00A0}' || c == '\U{1680}' || c == '\U{180E}'
    || ('\U{2000}' <= c <= '\U{200A}') || c == '\U{2028}' || c == '\U{2029}' || c == '\U{202F}'
    || c == '\U{205F}' || c == '\U{3000}'
  }

  /** Every character of `s` is white space (true of the empty string). */
  predicate Blank(s: string)
  {
    forall i {:trigger IsSpace(s[i])} :: 0 <= i < |s| ==> IsSpace(s[i])
  }

  /** How many white-space characters `s` starts with. */
  function LeadingWhiteSpace(s: string): (n: nat)
    ensures n <= |s| && (n == |s| || !IsSpace(s[n]))
    ensures forall i {:trigger IsSpace(s[i])} :: 0 <= i < n ==> IsSpace(s[i])
  {
    SpaceRunFrom(s, 0)
  }

  /** The end of the run of white space that starts at `i`. */
  function SpaceRunFrom(s: string, i: nat): (n: nat)
    requires i <= |s|
    decreases |s| - i
    ensures i <= n <= |s| && (n == |s| || !IsSpace(s[n]))
    ensures forall j {:trigger IsSpace(s[j])} :: i <= j < n ==> IsSpace(s[j])
  {
    if i == |s| || !IsSpace(s[i]) then i else SpaceRunFrom(s, i + 1)
  }

  /** How many white-space characters `s` ends with. */
  function TrailingWhiteSpace(s: string): (n: nat)
    ensures n <= |s| && (n == |s| || !IsSpace(s[|s| - n - 1]))
    ensures forall i {:trigger IsSpace(s[i])} :: |s| - n <= i < |s| ==> IsSpace(s[i])
  {
    |s| - SpaceRunBefore(s, |s|)
  }

  /** The start of the run of white space that ends just before `e`. */
  function SpaceRunBefore(s: string, e: nat): (m: nat)
    requires e <= |s|
    ensures m <= e && (m == 0 || !IsSpace(s[m - 1]))
    ensures forall j {:trigger IsSpace(s[j])} :: m <= j < e ==> IsSpace(s[j])
  {
    if e == 0 || !IsSpace(s[e - 1]) then e else SpaceRunBefore(s, e - 1)
  }

  /** `s` without its leading white space: the longest suffix that does not start
      with a space, all that was dropped being space. */
  function TrimStart(s: string): (r: string)
    ensures |r| <= |s| && r == s[|s| - |r|..]
    ensures r == [] || !IsSpace(r[0])
    ensures Blank(s[..|s| - |r|])
  {
    s[LeadingWhiteSpace(s)..]
  }

  /** `s` without its trailing white space. */
  function TrimEnd(s: string): (r: string)
    ensures |r| <= |s| && r == s[..|r|]
    ensures r == [] || !IsSpace(r[|r| - 1])
    ensures Blank(s[|r|..])
  {
    s[..|s| - TrailingWhiteSpace(s)]
  }

  /** `QString::trimmed`: white space removed from both ends. */
  function Trimmed(s: string): string
  {
    TrimEnd(TrimStart(s))
  }

  /** What `trimmed` keeps: a slice of the text that neither starts nor ends with
      white space, cut out of it with nothing but white space around it. */
  lemma TrimmedSlice(s: string)
    ensures var t := Trimmed(s);
      exists i :: 0 <= i <= i + |t| <= |s| && t == s[i..i + |t|]
        && Blank(s[..i]) && Blank(s[i + |t|..])
    ensures Trimmed(s) == [] || (!IsSpace(Trimmed(s)[0]) && !IsSpace(Trimmed(s)[|Trimmed(s)| - 1]))
  {
    var u := TrimStart(s);
    var t := TrimEnd(u);
    var i := |s| - |u|;
    assert t == s[i..i + |t|];
    assert s[i + |t|..] == u[|t|..];
  }

  /** A trimmed text is empty exactly when the text was all white space: the test the
      wizard pages make on the names typed into them. */
  lemma TrimmedEmpty(s: string)
    ensures Trimmed(s) == [] <==> Blank(s)
  {
    var u := TrimStart(s);
    if Trimmed(s) == [] {
      assert u == [];
      assert s[..|s| - |u|] == s;
    }
  }

  /** Trimming twice changes nothing more. */
  lemma TrimmedIdempotent(s: string)
    ensures Trimmed(Trimmed(s)) == Trimmed(s)
  {
    var t := Trimmed(s);
    TrimmedSlice(s);
    if t != [] {
      assert TrimStart(t) == t;
    }
  }
}
