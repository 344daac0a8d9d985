/**
 The text file through which all processes of the two deadlock assignments share their matrix
 (os_lab/assignment5): numbers printed with "%d\t", a newline after each line, read back with "%d".

 The file is rewound but never truncated before it is written, so older, longer text stays
 behind the new numbers.
 */
module MatrixFile {
  import opened Wrappers
  import opened StateMatrix

  // ---------- Numbers as text ----------

  function Digit(d: nat): char
    requires d < 10
  {
    ['0', '1', '2', '3', '4', '5', '6', '7', '8', '9'][d]
  }

  predicate IsDigit(c: char) { '0' <= c <= '9' }

  function DigitValue(c: char): nat
    requires IsDigit(c)
  {
    (c - '0') as int
  }

  predicate IsSpace(c: char) { c == ' ' || '\t' <= c <= '\r' }

  function Natural(n: nat): (s: string)
    ensures |s| > 0 && forall i :: 0 <= i < |s| ==> IsDigit(s[i])
  {
    if n < 10 then [Digit(n)] else Natural(n / 10) + [Digit(n % 10)]
  }

  /** What "%d" prints. */
  function Decimal(v: int): string {
    if v < 0 then "-" + Natural(-v) else Natural(v)
  }

  function SkipSpace(s: string): string {
    if s != "" && IsSpace(s[0]) then SkipSpace(s[1..]) else s
  }

  function DigitsOf(s: string): (ds: string)
    ensures ds <= s && forall i :: 0 <= i < |ds| ==> IsDigit(ds[i])
  {
    if s != "" && IsDigit(s[0]) then [s[0]] + DigitsOf(s[1..]) else ""
  }

  function ValueOf(ds: string): nat
    requires forall i :: 0 <= i < |ds| ==> IsDigit(ds[i])
  {
    if ds == "" then 0 else 10 * ValueOf(ds[..|ds| - 1]) + DigitValue(ds[|ds| - 1])
  }

  /** What "%d" reads once white space is skipped, and what it leaves unread. */
  function ScanNumber(t: string): (Option<int>, string) {
    var signed := t != "" && (t[0] == '-' || t[0] == '+');
    var body := if signed then t[1..] else t;
    var ds := DigitsOf(body);
    var v: int := ValueOf(ds);
    if ds == "" then (None, t)
    else (Some(if signed && t[0] == '-' then -v else v), body[|ds|..])
  }

  /** What "%d" reads, and what it leaves unread. */
  function Scan(s: string): (Option<int>, string) { ScanNumber(SkipSpace(s)) }

  lemma {:induction false} NaturalValue(n: nat)
    ensures ValueOf(Natural(n)) == n
  {
    if n >= 10 {
      NaturalValue(n / 10);
      assert Natural(n)[..|Natural(n)| - 1] == Natural(n / 10);
    } else {
      assert Natural(n)[..0] == "";
    }
  }

  // ---------- What "%d" reads ----------

  lemma {:induction false} DigitsAre(ds: string, rest: string)
    requires forall i :: 0 <= i < |ds| ==> '0' <= ds[i] <= '9'
    requires rest == "" || !('0' <= rest[0] <= '9')
    ensures DigitsOf(ds + rest) == ds
  {
    if ds != "" {
      assert (ds + rest)[1..] == ds[1..] + rest;
      DigitsAre(ds[1..], rest);
    }
  }

  /** Blank, horizontal and vertical tab, newline, form feed, carriage return. */
  predicate Blank(c: char) { c as int == 32 || 9 <= c as int <= 13 }

  lemma {:induction false} BlanksSkipped(blanks: string, rest: string)
    requires forall i :: 0 <= i < |blanks| ==> Blank(blanks[i])
    requires rest == "" || !Blank(rest[0])
    ensures SkipSpace(blanks + rest) == rest
  {
    if blanks != "" {
      assert (blanks + rest)[1..] == blanks[1..] + rest;
      BlanksSkipped(blanks[1..], rest);
    }
  }

  lemma Signed(sign: string, body: string)
    requires sign == "" || sign == "+" || sign == "-"
    requires body != "" && '0' <= body[0] <= '9'
    ensures var t := sign + body;
            && t != "" && !Blank(t[0]) && (t[0] == '-' <==> sign == "-")
            && (t[0] == '-' || t[0] == '+' <==> sign != "")
            && (sign != "" ==> t[1..] == body) && (sign == "" ==> t == body)
  {
    assert sign == "" ==> sign + body == body;
  }

  lemma NumberIn(t: string, body: string, ds: string, rest: string, v: int)
    requires t != "" && body == if t[0] == '-' || t[0] == '+' then t[1..] else t
    requires DigitsOf(body) == ds && ds != "" && body[|ds|..] == rest && v == ValueOf(ds)
    ensures ScanNumber(t) == (Some(if t[0] == '-' then -v else v), rest)
  {}

  lemma NumberIs(sign: string, ds: string, rest: string, v: int)
    requires sign == "" || sign == "+" || sign == "-"
    requires ds != "" && forall i :: 0 <= i < |ds| ==> '0' <= ds[i] <= '9'
    requires rest == "" || !('0' <= rest[0] <= '9')
    requires v == ValueOf(ds)
    ensures ScanNumber(sign + (ds + rest)) == (Some(if sign == "-" then -v else v), rest)
  {
    Signed(sign, ds + rest);
    DigitsAre(ds, rest);
    assert (ds + rest)[|ds|..] == rest;
    NumberIn(sign + (ds + rest), ds + rest, ds, rest, v);
  }

  /** Blanks, a sign or none, digits: the number is read, and everything from the first other character on is left. */
  lemma ScanIs(blanks: string, sign: string, ds: string, rest: string, v: int)
    requires forall i :: 0 <= i < |blanks| ==> Blank(blanks[i])
    requires sign == "" || sign == "+" || sign == "-"
    requires ds != "" && forall i :: 0 <= i < |ds| ==> '0' <= ds[i] <= '9'
    requires rest == "" || !('0' <= rest[0] <= '9')
    requires v == ValueOf(ds)
    ensures Scan(blanks + (sign + (ds + rest))) == (Some(if sign == "-" then -v else v), rest)
  {
    Signed(sign, ds + rest);
    BlanksSkipped(blanks, sign + (ds + rest));
    NumberIs(sign, ds, rest, v);
  }

  // ---------- Reading undoes printing ----------

  lemma Associative<T>(a: seq<T>, b: seq<T>, c: seq<T>)
    ensures a + b + c == a + (b + c)
  {
  }

  /** Reading undoes printing, for every integer, after any white space and before anything but a digit. */
  lemma ScanUndoesPrint(w: string, v: int, rest: string)
    requires Spaces(w) && (rest == "" || !IsDigit(rest[0]))
    ensures Scan(w + (Decimal(v) + rest)) == (Some(v), rest)
  {
    var sign, n: nat := if v < 0 then "-" else "", if v < 0 then -v else v;
    NaturalValue(n);
    ScanIs(w, sign, Natural(n), rest, n);
    SignInFront(v, sign, n, rest);
  }

  lemma SignInFront(v: int, sign: string, n: nat, rest: string)
    requires sign == (if v < 0 then "-" else "") && n == if v < 0 then -v else v
    ensures sign + (Natural(n) + rest) == Decimal(v) + rest
  {}

  ghost predicate Spaces(w: string) { forall i :: 0 <= i < |w| ==> Blank(w[i]) }

  // ---------- The matrix as text ----------

  type Printer = int -> string
  type Scanner = string -> (Option<int>, string)

  ghost predicate ReadsBack(scan: Scanner, show: Printer, w: string, v: int, rest: string) {
    Spaces(w) && (rest == "" || !IsDigit(rest[0])) ==> scan(w + (show(v) + rest)) == (Some(v), rest)
  }

  /** The scanner reads every printed number back, after any white space and before anything but a digit. */
  ghost predicate Undoes(scan: Scanner, show: Printer) {
    forall w: string, v: int, rest: string :: ReadsBack(scan, show, w, v, rest)
  }

  lemma ScanUndoesDecimal()
    ensures Undoes(Scan, Decimal)
  {
    forall w: string, v: int, rest: string ensures ReadsBack(Scan, Decimal, w, v, rest) {
      if Spaces(w) && (rest == "" || !IsDigit(rest[0])) { ScanUndoesPrint(w, v, rest); }
    }
  }

  function Concat(words: seq<string>): string {
    if words == [] then "" else Concat(words[..|words| - 1]) + words[|words| - 1]
  }

  /** fprintf("%d\t") for each cell. */
  function Words(show: Printer, cells: seq<int>): seq<string> {
    seq(|cells|, j requires 0 <= j < |cells| => show(cells[j]) + "\t")
  }

  function Line(show: Printer, cells: seq<int>): string { Concat(Words(show, cells)) + "\n" }

  function LineTexts(show: Printer, m: Matrix): seq<string> {
    seq(|m|, i requires 0 <= i < |m| => Line(show, m[i]))
  }

  function Lines(show: Printer, m: Matrix): string { Concat(LineTexts(show, m)) }

  lemma {:induction false} ConcatFront(words: seq<string>)
    requires words != []
    ensures Concat(words) == words[0] + Concat(words[1..])
  {
    if |words| == 1 {
      assert words[..0] == [] && words[1..] == [];
    } else {
      var init, last := words[..|words| - 1], words[|words| - 1];
      ConcatFront(init);
      assert words[1..][..|words| - 2] == init[1..];
      assert Concat(words[1..]) == Concat(init[1..]) + last;
      Associative(words[0], Concat(init[1..]), last);
    }
  }

  lemma ConcatGrows(words: seq<string>, j: nat)
    requires j < |words|
    ensures Concat(words[..j + 1]) == Concat(words[..j]) + words[j]
  {
    assert words[..j + 1][..j] == words[..j];
  }

  /** The first word, taken apart, before everything else. */
  lemma FirstWord(words: seq<string>, a: string, b: string, rest: string)
    requires words != [] && words[0] == a + b
    ensures Concat(words) + rest == a + (b + (Concat(words[1..]) + rest))
  {
    ConcatFront(words);
    Associative(a + b, Concat(words[1..]), rest);
    Associative(a, b, Concat(words[1..]) + rest);
  }

  /** What the loops of readMatrix get: None where fscanf finds no number and leaves the cell alone. */
  function ScanLine(scan: Scanner, s: string, columns: nat): (seq<Option<int>>, string)
    decreases columns
  {
    if columns == 0 then ([], s)
    else
      var (v, rest) := scan(s);
      var (vs, end) := ScanLine(scan, rest, columns - 1);
      ([v] + vs, end)
  }

  function ScanLines(scan: Scanner, s: string, lines: nat, columns: nat): seq<seq<Option<int>>>
    decreases lines
  {
    if lines == 0 then []
    else
      var (vs, rest) := ScanLine(scan, s, columns);
      [vs] + ScanLines(scan, rest, lines - 1, columns)
  }

  function Found(cells: seq<int>): seq<Option<int>> { seq(|cells|, j requires 0 <= j < |cells| => Some(cells[j])) }

  function AllFound(m: Matrix): seq<seq<Option<int>>> { seq(|m|, i requires 0 <= i < |m| => Found(m[i])) }

  lemma ScanLineStep(scan: Scanner, s: string, columns: nat, v: Option<int>, rest: string)
    requires columns > 0 && scan(s) == (v, rest)
    ensures ScanLine(scan, s, columns)
            == ([v] + ScanLine(scan, rest, columns - 1).0, ScanLine(scan, rest, columns - 1).1)
  {
  }

  lemma FoundFront(cells: seq<int>)
    requires cells != []
    ensures Found(cells) == [Some(cells[0])] + Found(cells[1..])
  {
  }

  lemma FirstCell(scan: Scanner, show: Printer, w: string, cells: seq<int>, rest: string)
    requires Undoes(scan, show) && Spaces(w) && cells != []
    ensures scan(w + (Concat(Words(show, cells)) + rest))
            == (Some(cells[0]), "\t" + (Concat(Words(show, cells[1..])) + rest))
  {
    var words := Words(show, cells);
    assert words[1..] == Words(show, cells[1..]);
    FirstWord(words, show(cells[0]), "\t", rest);
    assert ReadsBack(scan, show, w, cells[0], "\t" + (Concat(words[1..]) + rest));
  }

  lemma NoCells(show: Printer, cells: seq<int>, w: string, rest: string)
    requires cells == []
    ensures w + (Concat(Words(show, cells)) + rest) == w + rest && Found(cells) == []
  {
    assert Words(show, cells) == [];
  }

  lemma {:induction false} ScanLineUndoesWords(scan: Scanner, show: Printer, w: string, cells: seq<int>, rest: string)
    requires Undoes(scan, show) && Spaces(w)
    ensures ScanLine(scan, w + (Concat(Words(show, cells)) + rest), |cells|) ==
              (Found(cells), if cells == [] then w + rest else "\t" + rest)
    decreases |cells|
  {
    if cells == [] {
      NoCells(show, cells, w, rest);
    } else {
      var s, next := w + (Concat(Words(show, cells)) + rest), "\t" + (Concat(Words(show, cells[1..])) + rest);
      FirstCell(scan, show, w, cells, rest);
      ScanLineStep(scan, s, |cells|, Some(cells[0]), next);
      ScanLineUndoesWords(scan, show, "\t", cells[1..], rest);
      FoundFront(cells);
      if cells[1..] == [] { assert "\t" + rest == next; }
    }
  }

  lemma ScanLinesStep(scan: Scanner, s: string, lines: nat, columns: nat, cells: seq<Option<int>>, rest: string)
    requires lines > 0 && ScanLine(scan, s, columns) == (cells, rest)
    ensures ScanLines(scan, s, lines, columns) == [cells] + ScanLines(scan, rest, lines - 1, columns)
  {
  }

  lemma FirstLine(scan: Scanner, show: Printer, w: string, m: Matrix, columns: nat, rest: string)
    requires Undoes(scan, show) && Spaces(w) && columns > 0 && m != [] && |m[0]| == columns
    ensures ScanLines(scan, w + (Lines(show, m) + rest), |m|, columns) ==
              [Found(m[0])] + ScanLines(scan, "\t" + "\n" + (Lines(show, m[1..]) + rest), |m| - 1, columns)
  {
    var texts := LineTexts(show, m);
    var tail := Concat(texts[1..]) + rest;
    FirstWord(texts, Concat(Words(show, m[0])), "\n", rest);
    ScanLineUndoesWords(scan, show, w, m[0], "\n" + tail);
    ScanLinesStep(scan, w + (Lines(show, m) + rest), |m|, columns, Found(m[0]), "\t" + ("\n" + tail));
    Associative("\t", "\n", tail);
    assert texts[1..] == LineTexts(show, m[1..]);
  }

  /** Whatever follows the printed matrix, reading it gives the matrix back. */
  lemma {:induction false} ScanUndoesLines(scan: Scanner, show: Printer, w: string, m: Matrix, columns: nat,
                                           rest: string)
    requires Undoes(scan, show) && Spaces(w) && columns > 0 && Shaped(m, columns)
    ensures ScanLines(scan, w + (Lines(show, m) + rest), |m|, columns) == AllFound(m)
    decreases |m|
  {
    if m != [] {
      FirstLine(scan, show, w, m, columns, rest);
      ScanUndoesLines(scan, show, "\t" + "\n", m[1..], columns, rest);
      assert AllFound(m) == [Found(m[0])] + AllFound(m[1..]);
    }
  }

  /** The cells as int variables; one that was not found keeps whatever it held, 0 here. */
  function Values(cells: seq<Option<int>>, columns: nat): seq<int> {
    seq(columns, j requires 0 <= j < columns => if j < |cells| && cells[j].Some? then cells[j].value else 0)
  }

  // ---------- The file ----------

  function Overwrite(text: string, pos: nat, s: string): string
    requires pos <= |text|
  {
    text[..pos] + s + if pos + |s| < |text| then text[pos + |s|..] else ""
  }

  /** A text whose front, middle and tail are those of an overwritten text is that text. */
  lemma PiecesDetermine(text: string, pos: nat, s: string, now: string)
    requires pos <= |text| && pos + |s| <= |now|
    requires |now| == if pos + |s| < |text| then |text| else pos + |s|
    requires now[..pos] == text[..pos] && now[pos..pos + |s|] == s
    requires pos + |s| < |text| ==> now[pos + |s|..] == text[pos + |s|..]
    ensures now == Overwrite(text, pos, s)
  {
    assert now == now[..pos] + now[pos..pos + |s|] + now[pos + |s|..];
  }

  lemma OverwriteTwice(text: string, a: string, b: string)
    ensures Overwrite(Overwrite(text, 0, a), |a|, b) == Overwrite(text, 0, a + b)
  {
  }

  /** The text reads as m. */
  ghost predicate Encodes(text: string, m: Matrix, columns: nat) {
    Shaped(m, columns) && ScanLines(Scan, text, |m|, columns) == AllFound(m)
  }

  lemma {:induction false} SkipIsSuffix(s: string)
    ensures |SkipSpace(s)| <= |s| && SkipSpace(s) == s[|s| - |SkipSpace(s)|..]
  {
    if s != "" && IsSpace(s[0]) { SkipIsSuffix(s[1..]); }
  }

  lemma ScanIsSuffix(s: string)
    ensures |Scan(s).1| <= |s| && Scan(s).1 == s[|s| - |Scan(s).1|..]
  {
    SkipIsSuffix(s);
  }

  // ---------- What the text looks like ----------

  function Power(k: nat): nat { if k == 0 then 1 else 10 * Power(k - 1) }

  lemma {:induction false} PowerPositive(k: nat)
    ensures Power(k) > 0
  {
    if k > 0 { PowerPositive(k - 1); }
  }

  /** A natural number is printed by its decimal digits, the last one worth 1, with no zero in front. */
  lemma {:induction false} NaturalIs(n: nat, k: nat)
    requires k < |Natural(n)|
    ensures Power(k) > 0 && Natural(n)[|Natural(n)| - 1 - k] as int == '0' as int + (n / Power(k)) % 10
    decreases k
  {
    PowerPositive(k);
    if k > 0 {
      NaturalIs(n / 10, k - 1);
      PowerPositive(k - 1);
      DivideTwice(n, Power(k - 1));
    }
  }

  lemma DivideTwice(n: nat, p: nat)
    requires p > 0
    ensures n / 10 / p == n / (10 * p)
  {
    var q, r := n / 10, n % 10;
    var a, b := q / p, q % p;
    assert n == 10 * q + r && q == p * a + b;
    assert n == (10 * p) * a + (10 * b + r);
    assert 0 <= 10 * b + r < 10 * p;
    QuotientOnly(n, 10 * p, a, 10 * b + r);
  }

  lemma QuotientOnly(n: int, d: int, q: int, r: int)
    requires d > 0 && n == d * q + r && 0 <= r < d
    ensures n / d == q
  {
    var f := n / d;
    assert n == d * f + n % d;
    if f < q { Multiples(f + 1, q, d); } else if f > q { Multiples(q + 1, f, d); }
  }

  lemma Multiples(a: int, b: int, d: nat)
    requires a <= b
    ensures a * d <= b * d
  {}

  /** It has just the digits it needs. */
  lemma {:induction false} NaturalLength(n: nat)
    ensures |Natural(n)| >= 1 && n < Power(|Natural(n)|)
    ensures |Natural(n)| > 1 ==> n >= Power(|Natural(n)| - 1)
  {
    if n >= 10 { NaturalLength(n / 10); }
  }

  /** A line grows cell by cell, each followed by a tab; the text line by line, each closed by a newline. */
  lemma LineIs(cells: seq<int>, v: int)
    ensures Line(Decimal, []) == "\n"
    ensures Line(Decimal, [v] + cells) == (Decimal(v) + "\t") + Line(Decimal, cells)
  {
    var words := Words(Decimal, [v] + cells);
    assert Words(Decimal, []) == [];
    assert words[1..] == Words(Decimal, cells);
    ConcatFront(words);
    Associative(Decimal(v) + "\t", Concat(words[1..]), "\n");
  }

  lemma LinesAre(m: Matrix, cells: seq<int>)
    ensures Lines(Decimal, []) == ""
    ensures Lines(Decimal, [cells] + m) == Line(Decimal, cells) + Lines(Decimal, m)
  {
    var texts := LineTexts(Decimal, [cells] + m);
    assert LineTexts(Decimal, []) == [];
    assert texts[1..] == LineTexts(Decimal, m);
    ConcatFront(texts);
  }

  class File {
    var text: string
    var pos: nat

    constructor ()
      ensures text == "" && pos == 0
    {
      text, pos := "", 0;
    }

    method Rewind()
      modifies this`pos
      ensures pos == 0
    {
      pos := 0;
    }

    method Print(s: string)
      requires pos <= |text|
      modifies this
      ensures pos == old(pos) + |s| <= |text|
      ensures |text| == if pos < |old(text)| then |old(text)| else pos
      ensures text[..old(pos)] == old(text)[..old(pos)]
      ensures text[old(pos)..pos] == s
      ensures pos < |old(text)| ==> text[pos..] == old(text)[pos..]
    {
      text := Overwrite(text, pos, s);
      pos := pos + |s|;
    }

    /** fscanf(file, "%d", &v) */
    method ScanInt() returns (v: Option<int>)
      requires pos <= |text|
      modifies this`pos
      ensures pos <= |text| && (v, text[pos..]) == Scan(old(text[pos..]))
    {
      var (found, rest) := Scan(text[pos..]);
      v := found;
      ScanIsSuffix(text[pos..]);
      pos := |text| - |rest|;
    }

    /** Prints behind the text `done` that is already written over `before`. */
    method PrintBehind(s: string, ghost before: string, ghost done: string)
      requires pos == |done| <= |text| && text == Overwrite(before, 0, done)
      modifies this
      ensures pos == |done + s| <= |text| && text == Overwrite(before, 0, done + s)
    {
      ghost var was := text;
      OverwriteTwice(before, done, s);
      Print(s);
      PiecesDetermine(was, |done|, s, text);
    }

    /** The inner loop of writeMatrix. */
    method WriteCells(cells: seq<int>, ghost before: string, ghost done: string)
      requires pos == |done| <= |text| && text == Overwrite(before, 0, done)
      modifies this
      ensures pos == |done + Concat(Words(Decimal, cells))| <= |text|
      ensures text == Overwrite(before, 0, done + Concat(Words(Decimal, cells)))
    {
      ghost var words := Words(Decimal, cells);
      assert done + Concat(words[..0]) == done;
      for j := 0 to |cells|
        invariant pos == |done + Concat(words[..j])| <= |text|
        invariant text == Overwrite(before, 0, done + Concat(words[..j]))
      {
        PrintBehind(Decimal(cells[j]) + "\t", before, done + Concat(words[..j]));
        ConcatGrows(words, j);
        Associative(done, Concat(words[..j]), words[j]);
      }
      assert words[..|cells|] == words;
    }

    method WriteMatrix(m: Matrix)
      modifies this
      ensures text == Overwrite(old(text), 0, Lines(Decimal, m))
    {
      Rewind();
      ghost var before, texts := text, LineTexts(Decimal, m);
      assert Overwrite(before, 0, "") == before;
      for i := 0 to |m|
        invariant pos == |Concat(texts[..i])| <= |text| && text == Overwrite(before, 0, Concat(texts[..i]))
      {
        ghost var done := Concat(texts[..i]);
        WriteCells(m[i], before, done);
        PrintBehind("\n", before, done + Concat(Words(Decimal, m[i])));
        ConcatGrows(texts, i);
        Associative(done, Concat(Words(Decimal, m[i])), "\n");
      }
      assert texts[..|m|] == texts;
    }

    /** The inner loop of readMatrix. */
    method ReadCells(columns: nat) returns (row: seq<Option<int>>)
      requires pos <= |text|
      modifies this`pos
      ensures pos <= |text| && (row, text[pos..]) == ScanLine(Scan, old(text[pos..]), columns)
    {
      row := [];
      ghost var start := text[pos..];
      ghost var goal := ScanLine(Scan, start, columns);
      for j := 0 to columns
        invariant pos <= |text|
        invariant ScanLine(Scan, text[pos..], columns - j).1 == goal.1
        invariant row + ScanLine(Scan, text[pos..], columns - j).0 == goal.0
      {
        ghost var rest := text[pos..];
        var v := ScanInt();
        Associative(row, [v], ScanLine(Scan, text[pos..], columns - j - 1).0);
        row := row + [v];
      }
      assert row + [] == row;
    }

    method ReadMatrix(lines: nat, columns: nat) returns (m: seq<seq<Option<int>>>)
      modifies this`pos
      ensures m == ScanLines(Scan, text, lines, columns)
    {
      Rewind();
      m := [];
      ghost var goal := ScanLines(Scan, text, lines, columns);
      assert text[0..] == text && m + goal == goal;
      for i := 0 to lines
        invariant pos <= |text| && m + ScanLines(Scan, text[pos..], lines - i, columns) == goal
      {
        ghost var rest := text[pos..];
        var row := ReadCells(columns);
        ScanLinesStep(Scan, rest, lines - i, columns, row, text[pos..]);
        Associative(m, [row], ScanLines(Scan, text[pos..], lines - i - 1, columns));
        m := m + [row];
      }
      assert m + [] == m;
    }

    /** Read, change one cell, write back: if the file reads as m before, it reads as the changed m afterwards. */
    method UpdateMatrix(lines: nat, columns: nat, line: nat, column: nat, state: int, ghost m: Matrix)
      requires line < lines && column < columns && |m| == lines && Encodes(text, m, columns)
      modifies this
      ensures Encodes(text, m[line := m[line][column := state]], columns)
    {
      var cells := ReadMatrix(lines, columns);
      var matrix := seq(lines, i requires 0 <= i < lines => if i < |cells| then Values(cells[i], columns) else []);
      ReadGivesValues(cells, m, columns, matrix);
      matrix := matrix[line := matrix[line][column := state]];
      ghost var older := text;
      WriteMatrix(matrix);
      WriteThenRead(older, matrix, columns);
    }
  }

  lemma ReadGivesValues(cells: seq<seq<Option<int>>>, m: Matrix, columns: nat, values: Matrix)
    requires Shaped(m, columns) && cells == AllFound(m) && |values| == |m|
    requires forall i :: 0 <= i < |m| ==> values[i] == Values(cells[i], columns)
    ensures values == m
  {
    forall i | 0 <= i < |m| ensures values[i] == m[i] {
      assert cells[i] == Found(m[i]);
    }
  }

  /** readMatrix after writeMatrix returns the same matrix, whatever text the file held before. */
  lemma WriteThenRead(older: string, m: Matrix, columns: nat)
    requires columns > 0 && Shaped(m, columns)
    ensures Encodes(Overwrite(older, 0, Lines(Decimal, m)), m, columns)
  {
    var tail := if |Lines(Decimal, m)| < |older| then older[|Lines(Decimal, m)|..] else "";
    assert Overwrite(older, 0, Lines(Decimal, m)) == "" + (Lines(Decimal, m) + tail);
    ScanUndoesDecimal();
    ScanUndoesLines(Scan, Decimal, "", m, columns, tail);
  }
}
