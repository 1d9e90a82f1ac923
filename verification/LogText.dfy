/**
  The text in between the register printer and its parser: decimal numbers, padded columns, and
  rows of thirteen columns as the parser's regular expression takes them apart.
 */
module LogText {
  import opened Options

  // ----- Decimal numbers

  function Digit(d: nat): char
    requires d < 10
  {
    "0123456789"[d]
  }

  predicate IsDigit(c: char) {
    '0' <= c <= '9'
  }

  function DigitValue(c: char): nat
    requires IsDigit(c)
  {
    (c - '0') as nat
  }

  function Decimal(n: nat): string {
    if n < 10 then [Digit(n)] else Decimal(n / 10) + [Digit(n % 10)]
  }

  predicate AllDigits(s: string) {
    s != [] && forall i :: 0 <= i < |s| ==> IsDigit(s[i])
  }

  function Number(s: string): nat
    requires forall i :: 0 <= i < |s| ==> IsDigit(s[i])
  {
    if s == [] then 0 else 10 * Number(s[..|s| - 1]) + DigitValue(s[|s| - 1])
  }

  /** Printing a number and reading it back. */
  lemma {:induction false} NumberOfDecimal(n: nat)
    ensures AllDigits(Decimal(n)) && Number(Decimal(n)) == n
  {
    DigitRoundTrip(n % 10);
    if n < 10 {
      assert Decimal(n)[..0] == [];
    } else {
      NumberOfDecimal(n / 10);
      assert Decimal(n)[..|Decimal(n)| - 1] == Decimal(n / 10);
    }
  }

  lemma DigitRoundTrip(d: nat)
    requires d < 10
    ensures IsDigit(Digit(d)) && DigitValue(Digit(d)) == d
  {
  }

  // ----- Columns

  /** ASCII white space as the parser's expression has it. */
  predicate IsSpace(c: char) {
    '\t' <= c <= '\r' || '\U{1C}' <= c <= ' '
  }

  /** Something the parser takes as one column. */
  predicate Token(s: string) {
    s != [] && forall i :: 0 <= i < |s| ==> !IsSpace(s[i])
  }

  predicate Blank(s: string) {
    forall i :: 0 <= i < |s| ==> IsSpace(s[i])
  }

  function Spaces(n: int): string {
    if n <= 0 then "" else seq(n, _ => ' ')
  }

  /** A text in a column: right-justified, or left-justified when the width is negative. */
  function Pad(s: string, width: int): string {
    if width < 0 then s + Spaces(-width - |s|) else Spaces(width - |s|) + s
  }

  /** The widths of the thirteen columns of a row. */
  function Width(i: nat): int {
    if i == 0 then -5 else if i == 1 then -6 else if i < 4 then 5 else if i < 7 then 6 else 4
  }

  /** The columns from i on, each preceded by one space. */
  function Columns(toks: seq<string>, i: nat): string
    decreases |toks| - i
  {
    if i >= |toks| then "" else " " + (Pad(toks[i], Width(i)) + Columns(toks, i + 1))
  }

  function TokenLength(s: string): (k: nat)
    ensures k <= |s|
    ensures forall i :: 0 <= i < k ==> !IsSpace(s[i])
    ensures k < |s| ==> IsSpace(s[k])
  {
    if s == [] || IsSpace(s[0]) then 0 else 1 + TokenLength(s[1..])
  }

  /** The maximal runs of non-space characters. */
  function Split(s: string): seq<string>
    decreases |s|
  {
    if s == [] then []
    else if IsSpace(s[0]) then Split(s[1..])
    else var k := TokenLength(s); [s[..k]] + Split(s[k..])
  }

  lemma {:induction false} SplitSkipsBlank(blank: string, rest: string)
    requires Blank(blank)
    ensures Split(blank + rest) == Split(rest)
  {
    if blank == [] {
      assert blank + rest == rest;
    } else {
      assert (blank + rest)[1..] == blank[1..] + rest;
      SplitSkipsBlank(blank[1..], rest);
    }
  }

  lemma SplitTakesToken(tok: string, rest: string)
    requires Token(tok) && (rest == [] || IsSpace(rest[0]))
    ensures Split(tok + rest) == [tok] + Split(rest)
  {
    var s := tok + rest;
    var k := TokenLength(s);
    assert s[0] == tok[0] && !IsSpace(s[0]);
    assert forall i :: 0 <= i < |tok| ==> s[i] == tok[i];
    assert |tok| < |s| ==> s[|tok|] == rest[0];
    assert s[..k] == tok && s[k..] == rest;
  }

  lemma SplitTakesColumn(tok: string, width: int, rest: string)
    requires Token(tok) && (rest == [] || IsSpace(rest[0]))
    ensures Split(Pad(tok, width) + rest) == [tok] + Split(rest)
  {
    if width < 0 {
      SplitTakesPadded(tok, "", Spaces(-width - |tok|), rest);
      assert "" + tok == tok;
    } else {
      SplitTakesPadded(tok, Spaces(width - |tok|), "", rest);
      assert Spaces(width - |tok|) + tok + "" == Spaces(width - |tok|) + tok;
    }
  }

  lemma SplitTakesPadded(tok: string, left: string, right: string, rest: string)
    requires Token(tok) && Blank(left) && Blank(right) && (rest == [] || IsSpace(rest[0]))
    ensures Split(left + tok + right + rest) == [tok] + Split(rest)
  {
    SplitSkipsBlank(right, rest);
    SplitTakesToken(tok, right + rest);
    SplitSkipsBlank(left, tok + (right + rest));
    Regroup(left, tok, right, rest);
  }

  lemma Regroup(a: string, b: string, c: string, d: string)
    ensures a + b + c + d == a + (b + (c + d))
  {
  }

  /** Padding never merges, splits or changes columns. */
  lemma {:induction false} SplitOfColumns(toks: seq<string>, i: nat)
    requires i <= |toks| && forall k :: 0 <= k < |toks| ==> Token(toks[k])
    ensures Split(Columns(toks, i)) == toks[i..]
    decreases |toks| - i
  {
    if i < |toks| {
      SplitOfColumns(toks, i + 1);
      ColumnsStart(toks, i + 1);
      SplitFirstColumn(toks[i], Width(i), Columns(toks, i + 1));
      assert toks[i..] == [toks[i]] + toks[i + 1..];
    }
  }

  lemma SplitFirstColumn(tok: string, width: int, rest: string)
    requires Token(tok) && (rest == [] || IsSpace(rest[0]))
    ensures Split(" " + (Pad(tok, width) + rest)) == [tok] + Split(rest)
  {
    SkipOneSpace(Pad(tok, width) + rest);
    SplitTakesColumn(tok, width, rest);
  }

  lemma ColumnsStart(toks: seq<string>, i: nat)
    ensures Columns(toks, i) == [] || IsSpace(Columns(toks, i)[0])
  {
  }

  lemma SkipOneSpace(s: string)
    ensures Split(" " + s) == Split(s)
  {
    assert (" " + s)[1..] == s;
  }

  // ----- Rows

  /** A printed row: two spaces, then the thirteen columns. */
  function Row(toks: seq<string>): string {
    " " + Columns(toks, 0)
  }

  /**
    The parser's regular expression: two white-space characters, two columns of digits, eleven
    columns of anything, and optional white space at the end.
   */
  function MatchRow(line: string): Option<seq<string>> {
    if |line| < 3 || !IsSpace(line[0]) || !IsSpace(line[1]) || IsSpace(line[2]) then None
    else
      var toks := Split(line[2..]);
      if |toks| == 13 && AllDigits(toks[0]) && AllDigits(toks[1]) then Some(toks) else None
  }

  // ----- The expression itself

  /** Columns with the white space that follows each of them. */
  function Spell(toks: seq<string>, gaps: seq<string>): string
    requires |gaps| == |toks|
  {
    if toks == [] then "" else toks[0] + (gaps[0] + Spell(toks[1..], gaps[1..]))
  }

  /** White space between any two columns, and possibly after the last. */
  ghost predicate Fits(s: string, toks: seq<string>, gaps: seq<string>) {
    && |gaps| == |toks|
    && (forall k :: 0 <= k < |toks| ==> Token(toks[k]) && Blank(gaps[k]))
    && (forall k :: 0 <= k < |toks| - 1 ==> gaps[k] != "")
    && s == Spell(toks, gaps)
  }

  ghost predicate RowFits(line: string, toks: seq<string>, gaps: seq<string>) {
    && |line| >= 2 && IsSpace(line[0]) && IsSpace(line[1])
    && |toks| == 13 && AllDigits(toks[0]) && AllDigits(toks[1])
    && Fits(line[2..], toks, gaps)
  }

  lemma {:induction false} SplitOfSpelled(s: string, toks: seq<string>, gaps: seq<string>)
    requires Fits(s, toks, gaps)
    ensures Split(s) == toks
    decreases |toks|
  {
    if toks != [] {
      var rest := Spell(toks[1..], gaps[1..]);
      SplitOfSpelled(rest, toks[1..], gaps[1..]);
      assert gaps[0] != [] ==> (gaps[0] + rest)[0] == gaps[0][0];
      assert gaps[0] == [] ==> gaps[0] + rest == [];
      SplitTakesToken(toks[0], gaps[0] + rest);
      SplitSkipsBlank(gaps[0], rest);
    }
  }

  function BlankLength(s: string): (k: nat)
    ensures k <= |s|
    ensures Blank(s[..k]) && (k < |s| ==> !IsSpace(s[k]))
  {
    if s == [] || !IsSpace(s[0]) then 0 else 1 + BlankLength(s[1..])
  }

  lemma FirstColumn(s: string) returns (tok: string, gap: string, rest: string)
    requires s != [] && !IsSpace(s[0])
    ensures s == tok + (gap + rest) && |rest| < |s| && Split(s) == [tok] + Split(rest)
    ensures Token(tok) && Blank(gap) && (rest != [] ==> gap != [] && !IsSpace(rest[0]))
  {
    var k := TokenLength(s);
    tok := s[..k];
    var t := s[k..];
    var b := BlankLength(t);
    gap, rest := t[..b], t[b..];
    assert t == gap + rest;
    SplitSkipsBlank(gap, rest);
  }

  lemma {:induction false} SplitSpells(s: string) returns (gaps: seq<string>)
    requires s != [] ==> !IsSpace(s[0])
    ensures Fits(s, Split(s), gaps)
    decreases |s|
  {
    if s == [] {
      gaps := [];
    } else {
      var tok, gap, rest := FirstColumn(s);
      var later := SplitSpells(rest);
      gaps := [gap] + later;
      FitsOneMore(tok, gap, rest, Split(rest), later);
    }
  }

  lemma FitsOneMore(tok: string, gap: string, rest: string, toks: seq<string>, gaps: seq<string>)
    requires Token(tok) && Blank(gap) && Fits(rest, toks, gaps) && (rest != [] ==> gap != [])
    ensures Fits(tok + (gap + rest), [tok] + toks, [gap] + gaps)
  {
    assert ([tok] + toks)[1..] == toks && ([gap] + gaps)[1..] == gaps;
    assert toks != [] ==> rest != [];
  }

  /** Taking a line apart succeeds, with these columns, exactly when the line is such a row with them. */
  lemma MatchIsTheExpression(line: string, toks: seq<string>)
    ensures MatchRow(line) == Some(toks) <==> exists gaps :: RowFits(line, toks, gaps)
  {
    if MatchRow(line) == Some(toks) {
      var gaps := SplitSpells(line[2..]);
      assert RowFits(line, toks, gaps);
    }
    if gaps :| RowFits(line, toks, gaps) {
      SplitOfSpelled(line[2..], toks, gaps);
      assert line[2..][0] == toks[0][0];
    }
  }

  /** A row whose first column is as printed for a task is taken apart into what was printed. */
  lemma MatchOfRow(toks: seq<string>)
    requires |toks| == 13 && forall i :: 0 <= i < 13 ==> Token(toks[i])
    ensures MatchRow(Row(toks)) == if AllDigits(toks[0]) && AllDigits(toks[1]) then Some(toks) else None
  {
    var body := Pad(toks[0], Width(0)) + Columns(toks, 1);
    var line := Row(toks);
    assert line == " " + (" " + body);
    assert line[2..] == body;
    assert line[2] == toks[0][0];
    SplitOfColumns(toks, 0);
    SkipOneSpace(body);
    assert toks[0..] == toks;
  }
}
