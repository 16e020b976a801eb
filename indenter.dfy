/** The Python editor's automatic indenter. When a new line is started, the
    indenter looks at the line before it and decides the new line's indentation
    from that line's leading spaces, its last character and a remembered
    indentation (`m_tabSize`, an unsigned 32-bit counter); `else`, `elif` and
    `except` lines are pulled back by one step first. "Set the indentation of a
    line to n" is the only effect on the document that is modelled; it is
    returned rather than performed. */
module Indenter {
  import opened QtText

  datatype Option<T> = None | Some(value: T)

  /** Values of an `unsigned` (32 bits) lie below this. */
  const U32: nat := 0x1_0000_0000
  /** A `QString` has fewer characters than this, and an `int` is below it. */
  const I31: nat := 0x8000_0000

  /** The `int` an `unsigned` value turns into when it is passed as a column. */
  function ToInt(u: nat): (i: int)
    requires u < U32
    ensures -(I31 as int) <= i < I31
    ensures u < I31 ==> i == u
  {
    if u < I31 then u else u - U32
  }

  /** A C++ `int`, as the editor's tab size is. */
  predicate IsInt(x: int)
  {
    -(I31 as int) <= x < I31
  }

  /** The `unsigned` value of a difference or sum that lies at most one wrap-around
      away from the range of `unsigned`. */
  function Unsigned(a: int): (u: nat)
    requires -(U32 as int) <= a < 2 * U32
    ensures u < U32
    ensures 0 <= a < U32 ==> u == a
    ensures IsInt(a) ==> ToInt(u) == a
  {
    if a < 0 then a + U32 else if a >= U32 then a - U32 else a
  }

  /** `isElectricCharacter`: only a colon makes the indenter act while typing. */
  predicate IsElectricCharacter(ch: char)
  {
    ch == ':'
  }

  /** The number of spaces a line starts with (tabs do not count). */
  function LeadingSpaces(line: string): (n: nat)
    ensures n <= |line|
    ensures forall i :: 0 <= i < n ==> line[i] == ' '
    ensures n == |line| || line[n] != ' '
  {
    SpacesFrom(line, 0)
  }

  /** The end of the run of spaces that starts at `i`. */
  function SpacesFrom(line: string, i: nat): (n: nat)
    requires i <= |line|
    decreases |line| - i
    ensures i <= n <= |line|
    ensures forall j :: i <= j < n ==> line[j] == ' '
    ensures n == |line| || line[n] != ' '
  {
    if i == |line| || line[i] != ' ' then i else SpacesFrom(line, i + 1)
  }

  /** Only one count fits that description. */
  lemma {:induction false} LeadingSpacesUnique(line: string, n: nat)
    requires n <= |line|
    requires forall i :: 0 <= i < n ==> line[i] == ' '
    requires n == |line| || line[n] != ' '
    ensures n == LeadingSpaces(line)
  {
    SpacesFromUnique(line, 0, n);
  }

  lemma {:induction false} SpacesFromUnique(line: string, i: nat, n: nat)
    requires i <= n <= |line|
    requires forall j :: i <= j < n ==> line[j] == ' '
    requires n == |line| || line[n] != ' '
    decreases n - i
    ensures n == SpacesFrom(line, i)
  {
    if i < n {
      SpacesFromUnique(line, i + 1, n);
    }
  }

  /** `wspaces_count`: counts spaces from the start of the line up to the first
      other character. */
  method WSpacesCount(line: string) returns (n: nat)
    ensures n == LeadingSpaces(line)
  {
    n := 0;
    while n < |line| && line[n] == ' '
      invariant n <= |line|
      invariant forall i :: 0 <= i < n ==> line[i] == ' '
    {
      n := n + 1;
    }
    LeadingSpacesUnique(line, n);
  }

  /** The step one level of indentation takes: the editor's tab size, at most 4. */
  function Step(tabSetting: int): (s: int)
    ensures s <= 4 && s <= tabSetting
    ensures tabSetting <= 4 ==> s == tabSetting
  {
    if tabSetting > 4 then 4 else tabSetting
  }

  /** Whether the line ends with the electric character; an empty line does not
      (see `LastCharAsWritten` for what the indenter itself does there). */
  predicate EndsElectric(line: string)
  {
    line != [] && IsElectricCharacter(line[|line| - 1])
  }

  /** What `QRegExp("^[\\s]*kw(.*:)$")` accepts, also with `[\\s]*` after the
      keyword, which `.*` absorbs: white space, the keyword, then at least one more
      character, the last of them a colon. */
  predicate KeywordLine(line: string, kw: string)
  {
    var k := LeadingWhiteSpace(line);
    k + |kw| < |line| && (forall i :: 0 <= i < |kw| ==> line[k + i] == kw[i]) && line[|line| - 1] == ':'
  }

  /** The lines that close the block before them: `else`, `elif` and `except`
      lines. The three cases act alike. */
  predicate DedentLine(line: string)
  {
    KeywordLine(line, "else") || KeywordLine(line, "elif") || KeywordLine(line, "except")
  }

  /** `m_tabSize` after a line that is all white space, as written: lowered by the
      step unless it is 0, in unsigned arithmetic. */
  function BlankTabSizeAsWritten(tabSize: nat, step: int): nat
    requires tabSize < U32 && IsInt(step)
  {
    if tabSize > 0 then Unsigned(tabSize - step) else tabSize
  }

  /** As written, a remembered indentation smaller than the step wraps round:
      2 less 4 is 4294967294, which reaches the editor as the column -2. */
  lemma BlankWrapsAsWritten()
    ensures BlankTabSizeAsWritten(2, 4) == 0xFFFF_FFFE
    ensures ToInt(BlankTabSizeAsWritten(2, 4)) == -2
  {
  }

  /** `m_tabSize` after a line that is all white space, stopping at 0 as the test
      for 0 evidently means to. */
  function BlankTabSize(tabSize: nat, step: int): (r: nat)
    requires tabSize < U32 && IsInt(step)
    ensures r < U32
    ensures 0 < tabSize < step ==> r == 0
    ensures !(0 < tabSize < step) ==> r == BlankTabSizeAsWritten(tabSize, step)
    ensures 0 <= step ==> r <= tabSize && (tabSize >= step ==> r == tabSize - step)
  {
    if tabSize == 0 then 0
    else if tabSize >= step then Unsigned(tabSize - step)
    else 0
  }

  /** The effect of indenting one block: the new `m_tabSize`, the column given to
      the new line, and the column given to the line before it, if any. */
  datatype Outcome = Outcome(tabSize: nat, block: int, previous: Option<int>)

  /** `indentBlock` on a block whose previous line is `line`, with `tabSize` the
      remembered indentation and `tabSetting` the editor's tab size. */
  function IndentRule(tabSize: nat, tabSetting: int, line: string): (r: Outcome)
    requires tabSize < U32 && |line| < I31 && IsInt(tabSetting)
    ensures r.tabSize < U32
  {
    Rule(tabSize, Step(tabSetting), LeadingSpaces(line), EndsElectric(line), DedentLine(line), Blank(line))
  }

  /** The rule once the line is read: `lead` spaces in front, whether it ends with
      the electric character, starts with a dedenting keyword, or is all white space. */
  function Rule(tabSize: nat, step: int, lead: nat, electric: bool, dedent: bool, blank: bool): (r: Outcome)
    requires tabSize < U32 && lead < I31 && IsInt(step)
    ensures r.tabSize < U32
  {
    if electric then
      if dedent && tabSize == lead then
        Outcome(lead, ToInt(lead), Some(ToInt(Unsigned(lead - step))))
      else
        var t := Unsigned(lead + step);
        Outcome(t, ToInt(t), None)
    else if blank then
      var t := BlankTabSize(tabSize, step);
      Outcome(t, ToInt(t), None)
    else
      Outcome(lead, ToInt(lead), None)
  }

  /** A line ending in a colon opens a block: the remembered indentation goes one
      step deeper than the line, kept as an `unsigned` (a negative sum wraps round). */
  lemma OpenerIndents(tabSize: nat, tabSetting: int, line: string)
    requires tabSize < U32 && |line| < I31 && IsInt(tabSetting)
    requires EndsElectric(line) && !(DedentLine(line) && tabSize == LeadingSpaces(line))
    ensures var r := IndentRule(tabSize, tabSetting, line);
      && r.previous == None
      && r.tabSize == if LeadingSpaces(line) + Step(tabSetting) < 0 then LeadingSpaces(line) + Step(tabSetting) + U32
                      else LeadingSpaces(line) + Step(tabSetting)
  {
    OpenerRule(tabSize, Step(tabSetting), LeadingSpaces(line), EndsElectric(line), DedentLine(line), Blank(line));
  }

  /** In the usual case, where the deeper column is a valid `int`, it is the column
      the new line gets and the indentation remembered. */
  lemma OpenerColumn(tabSize: nat, tabSetting: int, line: string)
    requires tabSize < U32 && |line| < I31 && IsInt(tabSetting)
    requires EndsElectric(line) && !(DedentLine(line) && tabSize == LeadingSpaces(line))
    requires 0 <= LeadingSpaces(line) + Step(tabSetting) < I31
    ensures var r := IndentRule(tabSize, tabSetting, line);
      r.tabSize == r.block == LeadingSpaces(line) + Step(tabSetting)
  {
    OpenerRule(tabSize, Step(tabSetting), LeadingSpaces(line), EndsElectric(line), DedentLine(line), Blank(line));
  }

  lemma OpenerRule(tabSize: nat, step: int, lead: nat, electric: bool, dedent: bool, blank: bool)
    requires tabSize < U32 && lead < I31 && IsInt(step) && electric && !(dedent && tabSize == lead)
    ensures var r := Rule(tabSize, step, lead, electric, dedent, blank);
      && r.tabSize == Unsigned(lead + step) && r.previous == None
      && (0 <= lead + step < I31 ==> r.tabSize == r.block == lead + step)
  {
  }

  /** An `else`, `elif` or `except` line standing where the block it closes is
      indented goes back one step, and the new line stays where the keyword was. */
  lemma DedentLineMovesBack(tabSize: nat, tabSetting: int, line: string)
    requires tabSize < U32 && |line| < I31 && IsInt(tabSetting)
    requires EndsElectric(line) && DedentLine(line) && tabSize == LeadingSpaces(line)
    requires 0 <= tabSetting
    ensures IndentRule(tabSize, tabSetting, line)
      == Outcome(LeadingSpaces(line), LeadingSpaces(line), Some(LeadingSpaces(line) - Step(tabSetting)))
  {
    var step, lead := Step(tabSetting), LeadingSpaces(line);
    assert 0 <= step <= 4 && lead < I31;
    DedentRule(tabSize, step, lead, EndsElectric(line), DedentLine(line), Blank(line));
  }

  lemma DedentRule(tabSize: nat, step: int, lead: nat, electric: bool, dedent: bool, blank: bool)
    requires tabSize == lead < I31 && 0 <= step <= 4 && electric && dedent
    ensures Rule(tabSize, step, lead, electric, dedent, blank) == Outcome(lead, lead, Some(lead - step))
  {
  }

  /** A line that is all white space (an empty one too) lowers the indentation by one
      step, never below 0. */
  lemma BlankLineDedents(tabSize: nat, tabSetting: int, line: string)
    requires tabSize < I31 && |line| < I31 && IsInt(tabSetting)
    requires Blank(line)
    requires 0 <= tabSetting
    ensures var r := IndentRule(tabSize, tabSetting, line);
      && r.previous == None && r.tabSize == r.block
      && r.tabSize == if tabSize >= Step(tabSetting) then tabSize - Step(tabSetting) else 0
  {
    if line != [] {
      assert IsSpace(line[|line| - 1]);
    }
    BlankRule(tabSize, Step(tabSetting), LeadingSpaces(line), EndsElectric(line), DedentLine(line), Blank(line));
  }

  lemma BlankRule(tabSize: nat, step: int, lead: nat, electric: bool, dedent: bool, blank: bool)
    requires tabSize < I31 && lead < I31 && 0 <= step <= 4 && !electric && blank
    ensures var r := Rule(tabSize, step, lead, electric, dedent, blank);
      && r.previous == None && r.tabSize == r.block
      && r.tabSize == if tabSize >= step then tabSize - step else 0
  {
  }

  /** Any other line is copied: the new line starts under its first non-space. */
  lemma OtherLineCopied(tabSize: nat, tabSetting: int, line: string)
    requires tabSize < U32 && |line| < I31 && IsInt(tabSetting)
    requires !EndsElectric(line) && !Blank(line)
    ensures var r := IndentRule(tabSize, tabSetting, line);
      r == Outcome(LeadingSpaces(line), LeadingSpaces(line), None)
  {
  }

  /** After a block opener, an empty line goes back to the opener's own indentation. */
  lemma OpenerThenBlank(tabSize: nat, tabSetting: int, opener: string, blank: string)
    requires tabSize < U32 && |opener| < I31 - 4 && |blank| < I31 && IsInt(tabSetting)
    requires EndsElectric(opener) && !(DedentLine(opener) && tabSize == LeadingSpaces(opener))
    requires Blank(blank) && 1 <= tabSetting
    ensures var r := IndentRule(IndentRule(tabSize, tabSetting, opener).tabSize, tabSetting, blank);
      r.tabSize == r.block == LeadingSpaces(opener)
  {
    OpenerColumn(tabSize, tabSetting, opener);
    BlankLineDedents(IndentRule(tabSize, tabSetting, opener).tabSize, tabSetting, blank);
  }

  /** The indenter reads the last character of the previous line at index
      `size() - 1`, which lies inside the line only when the line is not empty. */
  function LastCharAsWritten(line: string): char
    requires 0 <= |line| - 1 < |line|
  {
    line[|line| - 1]
  }

  /** The index `size() - 1` lies inside the line exactly when the line is not
      empty: for the empty previous line of pressing Return twice it is -1, and
      `LastCharAsWritten` cannot be applied, although that line is blank. On every
      other line the read character is the one `EndsElectric` tests. */
  lemma EmptyLineAsWritten(line: string)
    ensures (0 <= |line| - 1 < |line|) <==> line != []
    ensures line == [] ==> Blank(line) && !EndsElectric(line)
    ensures line != [] ==> (EndsElectric(line) <==> IsElectricCharacter(LastCharAsWritten(line)))
  {
  }

  /** The repaired reading treats an empty line as the blank line it is. */
  lemma EmptyLineIsBlank(tabSize: nat, tabSetting: int)
    requires tabSize < U32 && IsInt(tabSetting)
    ensures IndentRule(tabSize, tabSetting, "").tabSize == BlankTabSize(tabSize, Step(tabSetting))
    ensures IndentRule(tabSize, tabSetting, "").previous == None
  {
  }

  /** The indenter and its remembered indentation. */
  class PythonIndenter {
    var tabSize: nat

    ghost predicate Valid()
      reads this
    {
      tabSize < U32
    }

    constructor ()
      ensures Valid() && tabSize == 0
    {
      tabSize := 0;
    }

    /** `indentBlock`: indents the new line (and perhaps the one before it) and
        remembers the new indentation. */
    method IndentBlock(tabSetting: int, line: string) returns (block: int, previous: Option<int>)
      requires Valid() && |line| < I31 && IsInt(tabSetting)
      modifies this
      ensures Valid()
      ensures Outcome(tabSize, block, previous) == IndentRule(old(tabSize), tabSetting, line)
    {
      var step := tabSetting;
      if step > 4 {
        step := 4;
      }
      var lead := WSpacesCount(line);
      ghost var rule := Rule(tabSize, step, lead, EndsElectric(line), DedentLine(line), Blank(line));
      assert rule == IndentRule(tabSize, tabSetting, line);
      previous := None;
      if line != [] && IsElectricCharacter(line[|line| - 1]) {
        if DedentLine(line) && tabSize == lead {
          var tsize := Unsigned(lead - step);
          previous := Some(ToInt(tsize));
          tsize := lead;
          block := ToInt(tsize);
          tabSize := tsize;
        } else {
          tabSize := Unsigned(lead + step);
          block := ToInt(tabSize);
        }
      } else if Blank(line) {
        tabSize := if tabSize == 0 then 0 else if tabSize >= step then Unsigned(tabSize - step) else 0;
        block := ToInt(tabSize);
      } else {
        tabSize := lead;
        block := ToInt(tabSize);
      }
    }
  }
}
