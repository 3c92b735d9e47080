/// The pure text handling of the Flask server (backend/app.py): reading
/// RNAfold's dot-bracket line, filling the RNAdistance parameters, building a
/// dbSNP wild-type/mutant pair, and the progress denominator of a single
/// analysis.
module Backend {
  import opened Text
  import opened Mutations

  // ---------------------------------------------------------------------
  // str.splitlines()

  /** The characters Python's str.splitlines() breaks lines at. */
  predicate IsLineBreak(c: char) {
    c == '\n' || c == '\r' || c == '\U{000B}' || c == '\U{000C}'
    || ('\U{001C}' <= c <= '\U{001E}') || c == '\U{0085}' || c == '\U{2028}' || c == '\U{2029}'
  }

  predicate NoBreak(s: string) {
    forall i :: 0 <= i < |s| ==> !IsLineBreak(s[i])
  }

  /** Length of the first line: the prefix before the first line break. */
  function LineRun(s: string): (n: nat)
    ensures n <= |s| && NoBreak(s[..n])
    ensures n == |s| || IsLineBreak(s[n])
  {
    if s != [] && !IsLineBreak(s[0]) then 1 + LineRun(s[1..]) else 0
  }

  /** str.splitlines(): the lines without their terminators; "\r\n" ends a
      line as one break, and a terminator at the very end adds no empty
      line. */
  function SplitLines(s: string): (lines: seq<string>)
    ensures forall i :: 0 <= i < |lines| ==> NoBreak(lines[i])
    ensures s == [] <==> lines == []
    decreases |s|
  {
    if s == [] then []
    else
      var n := LineRun(s);
      if n == |s| then [s]
      else
        var width := if s[n] == '\r' && n + 1 < |s| && s[n + 1] == '\n' then 2 else 1;
        [s[..n]] + SplitLines(s[n + width..])
  }

  lemma {:induction false} LineRunOf(line: string, rest: string)
    requires NoBreak(line)
    ensures LineRun(line + ['\n'] + rest) == |line|
  {
    if line != [] {
      LineRunOf(line[1..], rest);
      assert (line + ['\n'] + rest)[1..] == line[1..] + ['\n'] + rest;
    }
  }

  lemma {:induction false} LineRunBefore(line: string, more: string)
    requires NoBreak(line) && (more == [] || IsLineBreak(more[0]))
    ensures LineRun(line + more) == |line|
  {
    if line != [] {
      Uncons(line, more);
      LineRunBefore(line[1..], more);
    } else {
      Assoc(more, [], []);
    }
  }

  /** A line free of breaks, then nothing or a line break and anything:
      that line comes first. */
  lemma SplitLinesHead(line: string, more: string)
    requires line != [] && NoBreak(line) && (more == [] || IsLineBreak(more[0]))
    ensures SplitLines(line + more) != [] && SplitLines(line + more)[0] == line
  {
    LineRunBefore(line, more);
    assert (line + more)[..|line|] == line;
  }

  /** A line free of breaks, then "\n", then anything: that line comes
      first. */
  lemma SplitLinesFirst(line: string, rest: string)
    requires NoBreak(line)
    ensures SplitLines(line + ['\n'] + rest) == [line] + SplitLines(rest)
  {
    var s := line + ['\n'] + rest;
    LineRunOf(line, rest);
    assert s[..|line|] == line;
    assert s[|line| + 1..] == rest;
  }

  /** Lines joined with "\n" split back into the same lines, provided the
      last one is not empty (a final empty line would read as a trailing
      terminator). */
  lemma {:induction false} SplitLinesJoin(lines: seq<string>)
    requires |lines| >= 1 && lines[|lines| - 1] != []
    requires forall i :: 0 <= i < |lines| ==> NoBreak(lines[i])
    ensures SplitLines(JoinWith(lines, '\n')) == lines
  {
    if |lines| == 1 {
      assert LineRun(lines[0]) == |lines[0]| by {
        var l := lines[0];
        LineRunOf(l, []);
        assert LineRun(l + ['\n']) == |l|;
        LineRunPrefix(l);
      }
    } else {
      SplitLinesJoin(lines[1..]);
      SplitLinesFirst(lines[0], JoinWith(lines[1..], '\n'));
      assert [lines[0]] + lines[1..] == lines;
    }
  }

  lemma {:induction false} LineRunPrefix(line: string)
    requires NoBreak(line)
    ensures LineRun(line) == |line|
  {
    if line != [] {
      LineRunPrefix(line[1..]);
    }
  }

  // ---------------------------------------------------------------------
  // extract_dot_bracket_and_energy

  /** The character class [\.()\[\]] of the structure group. */
  predicate IsStructureChar(c: char) {
    c == '.' || c == '(' || c == ')' || c == '[' || c == ']'
  }

  predicate AllStructure(s: string) {
    forall i :: 0 <= i < |s| ==> IsStructureChar(s[i])
  }

  /** Length of the longest prefix of structure characters. */
  function StructureRun(s: string): (n: nat)
    ensures n <= |s| && AllStructure(s[..n])
    ensures n == |s| || !IsStructureChar(s[n])
  {
    if s != [] && IsStructureChar(s[0]) then 1 + StructureRun(s[1..]) else 0
  }

  lemma StructurePrefix(s: string, k: nat)
    requires k <= StructureRun(s)
    ensures AllStructure(s[..k])
  {
    assert forall i :: 0 <= i < k ==> s[..k][i] == s[..StructureRun(s)][i];
  }

  /** The energy group -?\d+\.\d+ matching the whole of e. */
  predicate IsEnergyText(e: string) {
    if e != [] && e[0] == '-' then IsUnsignedText(e[1..]) else IsUnsignedText(e)
  }

  /** \d+\.\d+ matching the whole of m. */
  predicate IsUnsignedText(m: string) {
    exists k :: 0 < k < |m| - 1 && m[k] == '.' && AllDigits(m[..k]) && AllDigits(m[k + 1..])
  }

  function Cons(c: char, r: Option<string>): Option<string> {
    if r.Some? then Some([c] + r.value) else None
  }

  // The tail \s*\(\s*(-?\d+\.\d+)\s*\) of the pattern, one function per
  // place in it. Each returns the part of the energy group still to be read,
  // or None. Every choice the pattern leaves is decided by the next
  // character, so no backtracking is needed; nothing after ')' matters.

  /** \s*\) */
  function CloseParen(u: string): Option<string>
    decreases |u|
  {
    if u == [] then None
    else if IsPySpace(u[0]) then CloseParen(u[1..])
    else if u[0] == ')' then Some([])
    else None
  }

  /** The rest of the fraction digits, then \s*\). */
  function FracPart(u: string): Option<string>
    decreases |u|
  {
    if u != [] && IsDigit(u[0]) then Cons(u[0], FracPart(u[1..])) else CloseParen(u)
  }

  /** The rest of the integer digits, '.', then the fraction. */
  function IntPart(u: string): Option<string>
    decreases |u|
  {
    if u == [] then None
    else if IsDigit(u[0]) then Cons(u[0], IntPart(u[1..]))
    else if u[0] == '.' && |u| > 1 && IsDigit(u[1]) then Cons('.', Cons(u[1], FracPart(u[2..])))
    else None
  }

  /** \d+\.\d+\s*\) */
  function Unsigned(u: string): Option<string> {
    if u != [] && IsDigit(u[0]) then Cons(u[0], IntPart(u[1..])) else None
  }

  /** \s*(-?\d+\.\d+)\s*\) */
  function EnergyStart(u: string): Option<string>
    decreases |u|
  {
    if u == [] then None
    else if IsPySpace(u[0]) then EnergyStart(u[1..])
    else if u[0] == '-' then Cons('-', Unsigned(u[1..]))
    else Unsigned(u)
  }

  /** \s*\(\s*(-?\d+\.\d+)\s*\) at the start of u: the energy text. */
  function TailEnergy(u: string): Option<string>
    decreases |u|
  {
    if u == [] then None
    else if IsPySpace(u[0]) then TailEnergy(u[1..])
    else if u[0] == '(' then EnergyStart(u[1..])
    else None
  }

  // Completeness: a parenthesised energy is found.

  lemma {:induction false} CloseComplete(r: string, rest: string)
    requires AllSpace(Py, r)
    ensures CloseParen(r + ([')'] + rest)) == Some([])
  {
    if r != [] {
      Uncons(r, [')'] + rest);
      assert IsSpace(Py, r[0]);
      CloseComplete(r[1..], rest);
    } else {
      Assoc([')'] + rest, [], []);
    }
  }

  lemma {:induction false} FracComplete(f: string, y: string)
    requires AllDigits(f) && CloseParen(y) == Some([])
    ensures FracPart(f + y) == Some(f)
  {
    if f != [] {
      Uncons(f, y);
      assert IsDigit(f[0]);
      FracComplete(f[1..], y);
      HeadTail(f);
    } else {
      Assoc(y, [], []);
    }
  }

  /** The three pieces of digits '.' digits. */
  lemma PointPieces(i: string, f: string)
    ensures var m := i + (['.'] + f);
      |m| == |i| + 1 + |f| && m[..|i|] == i && m[|i|] == '.' && m[|i| + 1..] == f
  {
  }

  lemma {:induction false} IntComplete(i: string, f: string, y: string)
    requires AllDigits(i) && f != [] && AllDigits(f) && CloseParen(y) == Some([])
    ensures IntPart(i + (['.'] + (f + y))) == Some(i + (['.'] + f))
  {
    if i != [] {
      Uncons(i, ['.'] + (f + y));
      assert IsDigit(i[0]);
      IntComplete(i[1..], f, y);
      ConsAssoc(i[0], i[1..], ['.'] + f);
      HeadTail(i);
    } else {
      var x := ['.'] + (f + y);
      Assoc(x, [], []);
      Assoc(['.'] + f, [], []);
      Uncons(['.'], f + y);
      Assoc(f + y, [], []);
      Uncons(f, y);
      assert x[1..][1..] == x[2..];
      assert IsDigit(f[0]) && x[1] == f[0];
      FracComplete(f[1..], y);
      HeadTail(f);
    }
  }

  /** An energy text splits into its sign, integer digits and fraction. */
  lemma EnergyParts(e: string) returns (sign: string, i: string, f: string)
    requires IsEnergyText(e)
    ensures e == sign + (i + (['.'] + f))
    ensures sign == [] || sign == ['-']
    ensures i != [] && AllDigits(i) && f != [] && AllDigits(f)
  {
    var m := if e != [] && e[0] == '-' then e[1..] else e;
    var k :| 0 < k < |m| - 1 && m[k] == '.' && AllDigits(m[..k]) && AllDigits(m[k + 1..]);
    sign := if e != [] && e[0] == '-' then ['-'] else [];
    i, f := m[..k], m[k + 1..];
    SplitAt(m, k);
    HeadTail(m[k..]);
    assert m[k..][1..] == f;
    if sign == [] {
      Assoc(m, [], []);
    } else {
      HeadTail(e);
    }
  }

  lemma EnergyTextOf(sign: string, i: string, f: string)
    requires sign == [] || sign == ['-']
    requires i != [] && AllDigits(i) && f != [] && AllDigits(f)
    ensures IsEnergyText(sign + (i + (['.'] + f)))
  {
    var m := i + (['.'] + f);
    PointPieces(i, f);
    var k := |i|;
    assert 0 < k < |m| - 1 && m[k] == '.' && AllDigits(m[..k]) && AllDigits(m[k + 1..]);
    assert IsUnsignedText(m);
    Uncons(i, ['.'] + f);
    assert IsDigit(m[0]);
    if sign == [] {
      Assoc(m, [], []);
    } else {
      Uncons(['-'], m);
      Assoc(m, [], []);
    }
  }

  lemma UnsignedComplete(i: string, f: string, y: string)
    requires i != [] && AllDigits(i) && f != [] && AllDigits(f) && CloseParen(y) == Some([])
    ensures Unsigned(i + (['.'] + (f + y))) == Some(i + (['.'] + f))
  {
    Uncons(i, ['.'] + (f + y));
    assert IsDigit(i[0]);
    IntComplete(i[1..], f, y);
    ConsAssoc(i[0], i[1..], ['.'] + f);
    HeadTail(i);
  }

  /** An energy text with no leading white space. */
  lemma SignedComplete(sign: string, i: string, f: string, y: string)
    requires sign == [] || sign == ['-']
    requires i != [] && AllDigits(i) && f != [] && AllDigits(f) && CloseParen(y) == Some([])
    ensures EnergyStart(sign + (i + (['.'] + (f + y)))) == Some(sign + (i + (['.'] + f)))
  {
    var m, x := i + (['.'] + f), i + (['.'] + (f + y));
    UnsignedComplete(i, f, y);
    Uncons(i, ['.'] + (f + y));
    assert IsDigit(x[0]);
    if sign == [] {
      Assoc(m, [], []);
      Assoc(x, [], []);
    } else {
      Uncons(['-'], x);
      Assoc(x, [], []);
    }
  }

  lemma {:induction false} EnergyComplete(q: string, e: string, y: string)
    requires AllSpace(Py, q) && IsEnergyText(e) && CloseParen(y) == Some([])
    ensures EnergyStart(q + (e + y)) == Some(e)
  {
    if q != [] {
      Uncons(q, e + y);
      assert IsSpace(Py, q[0]);
      EnergyComplete(q[1..], e, y);
    } else {
      Assoc(e + y, [], []);
      var sign, i, f := EnergyParts(e);
      Assoc(sign, i + (['.'] + f), y);
      Assoc(i, ['.'] + f, y);
      Assoc(['.'], f, y);
      SignedComplete(sign, i, f, y);
    }
  }

  /** A parenthesised energy, with white space around both parentheses and
      anything after them, is what the tail finds. */
  lemma {:induction false} TailEnergyComplete(p: string, q: string, e: string, r: string, rest: string)
    requires AllSpace(Py, p) && AllSpace(Py, q) && IsEnergyText(e) && AllSpace(Py, r)
    ensures TailEnergy(p + (['('] + (q + (e + (r + ([')'] + rest)))))) == Some(e)
  {
    var z := q + (e + (r + ([')'] + rest)));
    if p != [] {
      Uncons(p, ['('] + z);
      assert IsSpace(Py, p[0]);
      TailEnergyComplete(p[1..], q, e, r, rest);
    } else {
      Assoc(['('] + z, [], []);
      Uncons(['('], z);
      Assoc(z, [], []);
      CloseComplete(r, rest);
      EnergyComplete(q, e, r + ([')'] + rest));
    }
  }

  // Soundness: what is found is a parenthesised energy.

  lemma {:induction false} CloseSound(x: string) returns (r: string, rest: string)
    requires CloseParen(x).Some?
    ensures CloseParen(x) == Some([]) && AllSpace(Py, r) && x == r + ([')'] + rest)
    decreases |x|
  {
    HeadTail(x);
    if IsPySpace(x[0]) {
      var r', rest' := CloseSound(x[1..]);
      r, rest := [x[0]] + r', rest';
      ConsAssoc(x[0], r', [')'] + rest);
    } else {
      r, rest := [], x[1..];
      Assoc(x, [], []);
    }
  }

  lemma {:induction false} FracSound(x: string) returns (f: string, y: string)
    requires FracPart(x).Some?
    ensures FracPart(x) == Some(f) && AllDigits(f) && CloseParen(y) == Some([]) && x == f + y
    decreases |x|
  {
    if x != [] && IsDigit(x[0]) {
      HeadTail(x);
      var f', y' := FracSound(x[1..]);
      f, y := [x[0]] + f', y';
      ConsAssoc(x[0], f', y');
    } else {
      var r, rest := CloseSound(x);
      f, y := [], x;
      Assoc(x, [], []);
    }
  }

  lemma {:induction false} IntSound(x: string) returns (i: string, f: string, y: string)
    requires IntPart(x).Some?
    ensures IntPart(x) == Some(i + (['.'] + f))
    ensures AllDigits(i) && f != [] && AllDigits(f) && CloseParen(y) == Some([])
    ensures x == i + (['.'] + (f + y))
    decreases |x|
  {
    HeadTail(x);
    if IsDigit(x[0]) {
      var i', f', y' := IntSound(x[1..]);
      i, f, y := [x[0]] + i', f', y';
      ConsAssoc(x[0], i', ['.'] + f);
      ConsAssoc(x[0], i', ['.'] + (f + y));
    } else {
      var x1 := x[1..];
      HeadTail(x1);
      assert x1[0] == x[1] && x1[1..] == x[2..];
      var f', y' := FracSound(x[2..]);
      i, f, y := [], [x[1]] + f', y';
      ConsAssoc(x[1], f', y');
      Assoc(['.'] + f, [], []);
      Assoc(['.'] + (f + y), [], []);
    }
  }

  lemma UnsignedSound(x: string) returns (e: string, y: string)
    requires Unsigned(x).Some?
    ensures Unsigned(x) == Some(e) && IsEnergyText(e) && CloseParen(y) == Some([]) && x == e + y
  {
    HeadTail(x);
    var i', f, y' := IntSound(x[1..]);
    var i := [x[0]] + i';
    e, y := i + (['.'] + f), y';
    ConsAssoc(x[0], i', ['.'] + f);
    ConsAssoc(x[0], i', ['.'] + (f + y));
    Assoc(i, ['.'] + f, y);
    Assoc(['.'], f, y);
    EnergyTextOf([], i, f);
    Assoc(e, [], []);
  }

  lemma {:induction false} EnergySound(x: string) returns (q: string, e: string, y: string)
    requires EnergyStart(x).Some?
    ensures EnergyStart(x) == Some(e) && AllSpace(Py, q) && IsEnergyText(e) && CloseParen(y) == Some([])
    ensures x == q + (e + y)
    decreases |x|
  {
    HeadTail(x);
    if IsPySpace(x[0]) {
      var q', e', y' := EnergySound(x[1..]);
      q, e, y := [x[0]] + q', e', y';
      ConsAssoc(x[0], q', e + y);
    } else if x[0] == '-' {
      var u, y' := UnsignedSound(x[1..]);
      q, e, y := [], ['-'] + u, y';
      var sign, i, f := EnergyParts(u);
      assert sign == [] by {
        HeadTail(x[1..]);
        assert u[0] == x[1..][0] && IsDigit(u[0]);
      }
      Assoc(i + (['.'] + f), [], []);
      EnergyTextOf(['-'], i, f);
      ConsAssoc('-', u, y);
      Assoc(e + y, [], []);
    } else {
      var u, y' := UnsignedSound(x);
      q, e, y := [], u, y';
      Assoc(e + y, [], []);
    }
  }

  /** What the tail finds is an energy text in parentheses, with white
      space around both parentheses. */
  lemma {:induction false} TailEnergySound(u: string) returns (p: string, q: string, r: string, rest: string)
    requires TailEnergy(u).Some?
    ensures IsEnergyText(TailEnergy(u).value)
    ensures AllSpace(Py, p) && AllSpace(Py, q) && AllSpace(Py, r)
    ensures u == p + (['('] + (q + (TailEnergy(u).value + (r + ([')'] + rest)))))
    decreases |u|
  {
    HeadTail(u);
    var e := TailEnergy(u).value;
    if IsPySpace(u[0]) {
      var p';
      p', q, r, rest := TailEnergySound(u[1..]);
      p := [u[0]] + p';
      ConsAssoc(u[0], p', ['('] + (q + (e + (r + ([')'] + rest)))));
    } else {
      var e', y;
      q, e', y := EnergySound(u[1..]);
      r, rest := CloseSound(y);
      p := [];
      Assoc(['('] + (q + (e + (r + ([')'] + rest)))), [], []);
    }
  }

  /** Why the file could not be read; in the source both are ValueError. */
  datatype FoldError = TooFewLines | NoStructureMatch

  /** The tail does not match after the first j characters of t. */
  predicate TailFailsAt(t: string, j: nat)
    requires j <= |t|
  {
    TailEnergy(t[j..]).None?
  }

  /** re.match of ([\.()\[\]]+) followed by the tail: the structure group
      backtracks from the longest run of structure characters to the first
      length k >= 1 at which the tail matches. */
  function MatchFrom(t: string, k: nat): (r: Option<(nat, string)>)
    requires k <= |t|
    ensures r.Some? ==> 0 < r.value.0 <= k && TailEnergy(t[r.value.0..]) == Some(r.value.1)
    ensures r.Some? ==> forall j :: r.value.0 < j <= k ==> TailFailsAt(t, j)
    ensures r.None? ==> forall j :: 0 < j <= k ==> TailFailsAt(t, j)
  {
    if k == 0 then None
    else
      match TailEnergy(t[k..])
      case Some(e) => Some((k, e))
      case None => MatchFrom(t, k - 1)
  }

  /** extract_dot_bracket_and_energy: the structure and the energy text of
      the stripped second line. */
  function ExtractDotBracketAndEnergy(content: string): (r: Result<(string, string), FoldError>)
    ensures r == Err(TooFewLines) <==> |SplitLines(content)| < 2
    ensures r.Ok? ==>
      var t := Trim(Py, SplitLines(content)[1]);
      var db, e := r.value.0, r.value.1;
      && db != [] && AllStructure(db) && StartsWith(t, db)
      && TailEnergy(t[|db|..]) == Some(e)
      && (forall j :: |db| < j <= StructureRun(t) ==> TailFailsAt(t, j))
    ensures r == Err(NoStructureMatch) <==>
      |SplitLines(content)| >= 2 &&
      var t := Trim(Py, SplitLines(content)[1]);
      forall j :: 0 < j <= StructureRun(t) ==> TailFailsAt(t, j)
  {
    var lines := SplitLines(content);
    if |lines| < 2 then Err(TooFewLines)
    else
      var t := Trim(Py, lines[1]);
      match MatchFrom(t, StructureRun(t))
      case None => Err(NoStructureMatch)
      case Some((k, e)) =>
        StructurePrefix(t, k);
        assert !TailFailsAt(t, k);
        Ok((t[..k], e))
  }

  lemma {:induction false} StructureRunAfter(db: string, tail: string)
    requires AllStructure(db)
    ensures StructureRun(db + tail) == |db| + StructureRun(tail)
  {
    if db != [] {
      Uncons(db, tail);
      assert IsStructureChar(db[0]);
      StructureRunAfter(db[1..], tail);
    } else {
      Assoc(tail, [], []);
    }
  }

  lemma {:induction false} TailSkipsSpace(q: string, z: string)
    requires AllSpace(Py, q)
    ensures TailEnergy(q + z) == TailEnergy(z)
  {
    if q != [] {
      Uncons(q, z);
      assert IsSpace(Py, q[0]);
      TailSkipsSpace(q[1..], z);
    } else {
      Assoc(z, [], []);
    }
  }

  /** An energy text starts with '-' or a digit. */
  lemma EnergyFirst(e: string)
    requires IsEnergyText(e)
    ensures e != [] && (e[0] == '-' || IsDigit(e[0]))
  {
    var sign, i, f := EnergyParts(e);
    Uncons(i, ['.'] + f);
    if sign == [] {
      Assoc(i + (['.'] + f), [], []);
    } else {
      Uncons(['-'], i + (['.'] + f));
    }
  }

  /** White space ends a structure run. */
  lemma RunStopsAtSpace(p: string, z: string)
    requires p != [] && AllSpace(Py, p)
    ensures StructureRun(p + z) == 0
  {
    Uncons(p, z);
    assert IsSpace(Py, p[0]);
  }

  /** Right after the opening parenthesis come white space and the energy,
      which end a structure run and which the tail does not accept: if the
      structure group swallows the "(", the match fails there. */
  lemma RunStopsAfterOpen(q: string, e: string, y: string)
    requires AllSpace(Py, q) && e != [] && (e[0] == '-' || IsDigit(e[0]))
    ensures StructureRun(q + (e + y)) == 0 && TailEnergy(q + (e + y)).None?
  {
    Uncons(e, y);
    SignOrDigitStops(e + y);
    TailSkipsSpace(q, e + y);
    if q != [] {
      RunStopsAtSpace(q, e + y);
    } else {
      Assoc(e + y, [], []);
    }
  }

  lemma SignOrDigitStops(u: string)
    requires u != [] && (u[0] == '-' || IsDigit(u[0]))
    ensures StructureRun(u) == 0 && TailEnergy(u).None?
  {
    assert !IsPySpace(u[0]);
  }

  lemma OpenParenTail(p: string, q: string, e: string, y: string)
    requires AllSpace(Py, p) && AllSpace(Py, q) && IsEnergyText(e)
    ensures var tail := p + (['('] + (q + (e + y)));
      StructureRun(tail) == (if p == [] then 1 else 0)
      && (p == [] ==> TailEnergy(tail[1..]).None?)
  {
    var z := q + (e + y);
    if p != [] {
      RunStopsAtSpace(p, ['('] + z);
    } else {
      Assoc(['('] + z, [], []);
      Uncons(['('], z);
      Assoc(z, [], []);
      EnergyFirst(e);
      RunStopsAfterOpen(q, e, y);
    }
  }

  /** The structure group backtracks to the first length the tail accepts:
      when the tail matches at k and fails at every longer length up to
      the run, that is where the match is. */
  lemma MatchFromFinds(t: string, n: nat, k: nat, e: string)
    requires 0 < k <= n <= |t| && TailEnergy(t[k..]) == Some(e)
    requires forall j :: k < j <= n ==> TailFailsAt(t, j)
    ensures MatchFrom(t, n) == Some((k, e))
  {
    var m := MatchFrom(t, n);
    assert !TailFailsAt(t, k);
    if m.Some? {
      assert !TailFailsAt(t, m.value.0);
    }
  }

  /** On a line made of a structure run, white space, the energy in
      parentheses and anything after it, the match ends the structure group
      where the run given ends. */
  lemma LineMatch(db: string, p: string, q: string, e: string, r: string, rest: string)
    requires db != [] && AllStructure(db)
    requires AllSpace(Py, p) && AllSpace(Py, q) && IsEnergyText(e) && AllSpace(Py, r)
    ensures var line := db + (p + (['('] + (q + (e + (r + ([')'] + rest))))));
      MatchFrom(line, StructureRun(line)) == Some((|db|, e)) && line[..|db|] == db
  {
    var y := r + ([')'] + rest);
    var tail := p + (['('] + (q + (e + y)));
    var line := db + tail;
    var k := |db|;
    TailEnergyComplete(p, q, e, r, rest);
    assert line[k..] == tail;
    StructureRunAfter(db, tail);
    OpenParenTail(p, q, e, y);
    var n := StructureRun(line);
    if n == k + 1 {
      assert line[k + 1..] == tail[1..];
      assert TailFailsAt(line, k + 1);
    }
    assert forall j :: k < j <= n ==> TailFailsAt(line, j);
    MatchFromFinds(line, n, k, e);
  }

  /** A structure run, white space, then the energy in parentheses, on
      the second line: the structure and the energy text come back. */
  lemma ExtractFromSecondLine(first: string, db: string, p: string, q: string, e: string, r: string,
                               rest: string, w: string, more: string)
    requires NoBreak(first)
    requires db != [] && AllStructure(db)
    requires AllSpace(Py, p) && AllSpace(Py, q) && IsEnergyText(e) && AllSpace(Py, r)
    requires rest == [] || !IsPySpace(rest[|rest| - 1])
    requires AllSpace(Py, w) && (more == [] || IsLineBreak(more[0]))
    requires NoBreak(db + (p + (['('] + (q + (e + (r + ([')'] + rest))))))) && NoBreak(w)
    ensures var line := db + (p + (['('] + (q + (e + (r + ([')'] + rest))))));
      ExtractDotBracketAndEnergy(first + ['\n'] + ((line + w) + more)) == Ok((db, e))
  {
    var tail := p + (['('] + (q + (e + (r + ([')'] + rest)))));
    var line := db + tail;
    SplitLinesFirst(first, (line + w) + more);
    SecondLineText(line, w, more);
    LineEnds(db, tail, rest);
    TrimTrailing(Py, line, w);
    LineMatch(db, p, q, e, r, rest);
  }

  /** The energy line starts with the structure and ends with ')' or the
      last character of rest, so neither end is white space. */
  lemma LineEnds(db: string, tail: string, rest: string)
    requires db != [] && AllStructure(db) && (rest == [] || !IsPySpace(rest[|rest| - 1]))
    requires tail != [] && tail[|tail| - 1] == (if rest == [] then ')' else rest[|rest| - 1])
    ensures var line := db + tail; line != [] && !IsPySpace(line[0]) && !IsPySpace(line[|line| - 1])
  {
    Uncons(db, tail);
    assert IsStructureChar(db[0]);
  }

  /** The line with its trailing white space, then nothing or a line break:
      splitlines keeps the line and its white space together. */
  lemma SecondLineText(line: string, w: string, more: string)
    requires line != [] && NoBreak(line) && NoBreak(w) && (more == [] || IsLineBreak(more[0]))
    ensures SplitLines((line + w) + more) != [] && SplitLines((line + w) + more)[0] == line + w
  {
    assert NoBreak(line + w) by {
      assert forall i :: 0 <= i < |line + w| ==> (line + w)[i] == if i < |line| then line[i] else w[i - |line|];
    }
    SplitLinesHead(line + w, more);
  }

  /** What the extraction returns is a structure run and an energy text
      with a decimal point, in parentheses, at the start of the stripped
      second line: an energy without a point is never accepted. */
  lemma ExtractSound(content: string) returns (p: string, q: string, r: string, rest: string)
    requires ExtractDotBracketAndEnergy(content).Ok?
    ensures var t := Trim(Py, SplitLines(content)[1]);
      var (db, e) := ExtractDotBracketAndEnergy(content).value;
      && IsEnergyText(e) && '.' in e
      && AllSpace(Py, p) && AllSpace(Py, q) && AllSpace(Py, r)
      && t == db + (p + (['('] + (q + (e + (r + ([')'] + rest))))))
  {
    var t := Trim(Py, SplitLines(content)[1]);
    var (db, e) := ExtractDotBracketAndEnergy(content).value;
    p, q, r, rest := TailEnergySound(t[|db|..]);
    SplitAt(t, |db|);
    var sign, i, f := EnergyParts(e);
    PointPieces(i, f);
    assert '.' in i + (['.'] + f);
  }

  // ---------------------------------------------------------------------
  // parse_rnadistance_result_safe

  /** The keys of the result, in the order of the source's dictionary; the
      pattern's character class [fFhHcCwWP] is the same set. */
  const ParamNames: seq<char> := ['f', 'h', 'w', 'c', 'F', 'H', 'W', 'C', 'P']

  /** The value a key keeps when the text does not give one (0.0). */
  const DefaultValue: string := "0.0"

  /** One findall result: the parameter letter and the captured number
      text, which is empty when no number follows the colon. */
  datatype Capture = Capture(param: char, value: string)

  /** Why the result could not be parsed: float('') raised for an empty
      capture of this parameter. */
  datatype ParseError = EmptyValue(param: char)

  function LeadingDigits(u: string): (n: nat)
    ensures n <= |u| && AllDigits(u[..n]) && (n == |u| || !IsDigit(u[n]))
  {
    if u != [] && IsDigit(u[0]) then 1 + LeadingDigits(u[1..]) else 0
  }

  function LeadingSpaces(u: string): (n: nat)
    ensures n <= |u| && AllSpace(Py, u[..n]) && (n == |u| || !IsPySpace(u[n]))
  {
    if u != [] && IsPySpace(u[0]) then 1 + LeadingSpaces(u[1..]) else 0
  }

  /** Whether the optional group -?\d+\.?\d* can match here at all. */
  predicate StartsNumber(u: string) {
    (u != [] && IsDigit(u[0])) || (|u| > 1 && u[0] == '-' && IsDigit(u[1]))
  }

  /** What float() is given for a non-empty capture: an optional minus,
      digits, and optionally a point followed by more digits. */
  predicate IsNumberText(v: string) {
    var m := if v != [] && v[0] == '-' then v[1..] else v;
    exists k :: 0 < k <= |m| && AllDigits(m[..k]) && (k == |m| || (m[k] == '.' && AllDigits(m[k + 1..])))
  }

  /** Length of the greedy match of -?\d+\.?\d* at the start of u, or 0
      when the group does not match. */
  function NumberLength(u: string): (n: nat)
    ensures n <= |u|
    ensures n == 0 <==> !StartsNumber(u)
    ensures n == |u| || !IsDigit(u[n])
  {
    var sign := if u != [] && u[0] == '-' then 1 else 0;
    var d := LeadingDigits(u[sign..]);
    if d == 0 then 0
    else if sign + d < |u| && u[sign + d] == '.' then sign + d + 1 + LeadingDigits(u[sign + d + 1..])
    else sign + d
  }

  /** The greedy number match is a number text. */
  lemma NumberLengthShape(u: string)
    requires StartsNumber(u)
    ensures IsNumberText(u[..NumberLength(u)])
  {
    var n := NumberLength(u);
    var sign := if u != [] && u[0] == '-' then 1 else 0;
    var w := u[sign..];
    var d := LeadingDigits(w);
    assert d > 0 by {
      assert IsDigit(w[0]);
    }
    var m := u[..n][sign..];
    if sign + d < |u| && u[sign + d] == '.' {
      var f := LeadingDigits(u[sign + d + 1..]);
      assert n == sign + d + 1 + f;
      assert m[..d] == w[..d];
      assert m[d] == '.';
      assert m[d + 1..] == u[sign + d + 1..][..f];
    } else {
      assert n == sign + d;
      assert m[..d] == w[..d] && |m| == d;
    }
    assert 0 < d <= |m| && AllDigits(m[..d]) && (d == |m| || (m[d] == '.' && AllDigits(m[d + 1..])));
  }

  /** A prefix of k digits is never longer than the leading digits. */
  lemma {:induction false} LeadingDigitsAtLeast(w: string, k: nat)
    requires k <= |w| && AllDigits(w[..k])
    ensures LeadingDigits(w) >= k
  {
    if k > 0 {
      assert IsDigit(w[..k][0]);
      assert w[1..][..k - 1] == w[..k][1..];
      LeadingDigitsAtLeast(w[1..], k - 1);
    }
  }

  /** The leading digits are exactly k when k digits are followed by a
      character that is not one. */
  lemma LeadingDigitsExactly(w: string, k: nat)
    requires k < |w| && AllDigits(w[..k]) && !IsDigit(w[k])
    ensures LeadingDigits(w) == k
  {
    LeadingDigitsAtLeast(w, k);
  }

  /** The greedy match is the longest prefix of u that is a number text:
      no longer prefix is one. */
  lemma NumberLengthLongest(u: string, m: nat)
    requires NumberLength(u) < m <= |u|
    ensures !IsNumberText(u[..m])
  {
    var v := u[..m];
    if IsNumberText(v) {
      var sign := if u != [] && u[0] == '-' then 1 else 0;
      assert v[0] == u[0];
      var mm := v[sign..];
      var k :| 0 < k <= |mm| && AllDigits(mm[..k]) && (k == |mm| || (mm[k] == '.' && AllDigits(mm[k + 1..])));
      var w := u[sign..];
      assert w[..k] == mm[..k];
      if k < |mm| {
        assert w[k] == mm[k];
        assert u[sign + k + 1..][..m - sign - k - 1] == mm[k + 1..];
      }
      NumberLengthReaches(u, sign, k, m);
    }
  }

  /** Digits after the optional minus, then possibly a point and more
      digits up to m: the greedy match reaches at least m. */
  lemma NumberLengthReaches(u: string, sign: nat, k: nat, m: nat)
    requires sign == (if u != [] && u[0] == '-' then 1 else 0)
    requires 0 < k && sign + k <= m <= |u| && AllDigits(u[sign..][..k])
    requires sign + k == m || (u[sign..][k] == '.' && AllDigits(u[sign + k + 1..][..m - sign - k - 1]))
    ensures NumberLength(u) >= m
  {
    var w := u[sign..];
    if sign + k == m {
      LeadingDigitsAtLeast(w, k);
    } else {
      LeadingDigitsExactly(w, k);
      LeadingDigitsAtLeast(u[sign + k + 1..], m - sign - k - 1);
    }
  }

  /** v is the longest prefix of u that is a number text, or empty when
      no prefix of u is one. */
  predicate LongestNumberPrefix(u: string, v: string) {
    && |v| <= |u| && u[..|v|] == v
    && (v == [] || IsNumberText(v))
    && forall m :: |v| < m <= |u| ==> !IsNumberText(u[..m])
  }

  /** There is only one longest number prefix. */
  lemma LongestNumberPrefixUnique(u: string, v: string, w: string)
    requires LongestNumberPrefix(u, v) && LongestNumberPrefix(u, w)
    ensures v == w
  {
    if |v| == |w| {
      assert v == u[..|v|];
    }
  }

  /** The greedy match of -?\d+\.?\d* is the longest number prefix. */
  lemma GreedyNumber(u: string)
    ensures LongestNumberPrefix(u, u[..NumberLength(u)])
  {
    if NumberLength(u) > 0 {
      NumberLengthShape(u);
    }
    forall m | NumberLength(u) < m <= |u| {
      NumberLengthLongest(u, m);
    }
  }

  /** What the optional group captures at the start of u. */
  function NumberAfter(u: string): (v: string)
    ensures |v| <= |u| && (v == [] || IsNumberText(v)) && LongestNumberPrefix(u, v)
  {
    GreedyNumber(u);
    u[..NumberLength(u)]
  }

  /** Whether a key letter followed by ':' stands at position j of t. */
  predicate KeyColonAt(t: string, j: nat) {
    j + 1 < |t| && t[j] in ParamNames && t[j + 1] == ':'
  }

  /** Where the value can start once the colon after the key at i and the
      white space after it are passed. */
  function ValueStart(t: string, i: nat): (s: nat)
    requires KeyColonAt(t, i)
    ensures i + 2 <= s <= |t| && AllSpace(Py, t[i + 2..s]) && (s == |t| || !IsPySpace(t[s]))
  {
    var n := LeadingSpaces(t[i + 2..]);
    assert t[i + 2..][..n] == t[i + 2..i + 2 + n];
    i + 2 + n
  }

  /** The pattern matched at position i of t, if it matches there: the
      capture and the position after the match. The capture is the
      longest number text that starts after the colon and the white space
      that follows it, and empty when none starts there. */
  function MatchAt(t: string, i: nat): (r: Option<(Capture, nat)>)
    requires i <= |t|
    ensures r.Some? <==> KeyColonAt(t, i)
    ensures r.Some? ==> i + 2 <= r.value.1 <= |t| && r.value.0.param == t[i]
    ensures r.Some? ==> r.value.0.value == [] || IsNumberText(r.value.0.value)
    ensures r.Some? ==>
      ValueStart(t, i) + |r.value.0.value| == r.value.1 && LongestNumberPrefix(t[ValueStart(t, i)..], r.value.0.value)
  {
    if KeyColonAt(t, i) then
      var v := NumberAfter(t[ValueStart(t, i)..]);
      Some((Capture(t[i], v), ValueStart(t, i) + |v|))
    else None
  }

  /** Key letter c stands in t, at or after position i, before a colon. */
  predicate KeyColonWithin(t: string, i: nat, c: char) {
    exists j :: i <= j < |t| && KeyColonAt(t, j) && t[j] == c
  }

  /** Every capture's key stands in t, at or after position i, before a
      colon. */
  predicate KeysFromText(t: string, i: nat, caps: seq<Capture>) {
    forall k :: 0 <= k < |caps| ==> KeyColonWithin(t, i, caps[k].param)
  }

  /** No key letter followed by a colon stands at or after position i. */
  predicate NoKeyColonFrom(t: string, i: nat) {
    forall j :: i <= j < |t| ==> !KeyColonAt(t, j)
  }

  lemma KeyColonWiden(t: string, i: nat, e: nat, c: char)
    requires i <= e && KeyColonWithin(t, e, c)
    ensures KeyColonWithin(t, i, c)
  {
    var j :| e <= j < |t| && KeyColonAt(t, j) && t[j] == c;
    assert i <= j;
  }

  lemma KeysFromTextCons(t: string, i: nat, e: nat, c: Capture, caps: seq<Capture>)
    requires i < |t| && KeyColonAt(t, i) && c.param == t[i] && i <= e && KeysFromText(t, e, caps)
    ensures KeysFromText(t, i, [c] + caps)
  {
    forall k | 0 <= k < |[c] + caps|
      ensures KeyColonWithin(t, i, ([c] + caps)[k].param)
    {
      if k > 0 {
        assert ([c] + caps)[k] == caps[k - 1];
        KeyColonWiden(t, i, e, caps[k - 1].param);
      }
    }
  }

  lemma KeysFromTextNil(t: string, i: nat)
    ensures KeysFromText(t, i, [])
  {
  }

  lemma KeysFromTextSkip(t: string, i: nat, caps: seq<Capture>)
    requires KeysFromText(t, i + 1, caps)
    ensures KeysFromText(t, i, caps)
  {
    forall k | 0 <= k < |caps|
      ensures KeyColonWithin(t, i, caps[k].param)
    {
      KeyColonWiden(t, i, i + 1, caps[k].param);
    }
  }

  /** re.findall from position i: the search runs left to right and resumes
      where the previous match ended (no match is empty). Every capture's
      key stands in t before a colon, and nothing is captured exactly when
      no key and colon follow position i. */
  function FindAll(t: string, i: nat): (caps: seq<Capture>)
    requires i <= |t|
    ensures forall k :: 0 <= k < |caps| ==> caps[k].param in ParamNames
    ensures forall k :: 0 <= k < |caps| ==> caps[k].value == [] || IsNumberText(caps[k].value)
    ensures KeysFromText(t, i, caps)
    ensures caps == [] <==> NoKeyColonFrom(t, i)
    decreases |t| - i
  {
    if i == |t| then
      KeysFromTextNil(t, i);
      []
    else
      match MatchAt(t, i)
      case Some(m) =>
        var rest := FindAll(t, m.1);
        KeysFromTextCons(t, i, m.1, m.0, rest);
        [m.0] + rest
      case None =>
        var rest := FindAll(t, i + 1);
        KeysFromTextSkip(t, i, rest);
        rest
  }

  /** default_values: every key at 0.0. */
  function DefaultValues(): map<char, string> {
    map c | c in ParamNames :: DefaultValue
  }

  /** The dictionary once the captures have been stored in order. */
  function Stored(values: map<char, string>, caps: seq<Capture>): map<char, string> {
    if caps == [] then values
    else
      var c := caps[|caps| - 1];
      Stored(values, caps[..|caps| - 1])[c.param := c.value]
  }

  /** The value of the last capture for param, if there is one. */
  function LastCapture(caps: seq<Capture>, param: char): Option<string> {
    if caps == [] then None
    else if caps[|caps| - 1].param == param then Some(caps[|caps| - 1].value)
    else LastCapture(caps[..|caps| - 1], param)
  }

  predicate NoEmptyCapture(caps: seq<Capture>) {
    forall k :: 0 <= k < |caps| ==> caps[k].value != []
  }

  lemma NoEmptyExtend(caps: seq<Capture>, k: nat)
    requires k < |caps| && NoEmptyCapture(caps[..k]) && caps[k].value != []
    ensures NoEmptyCapture(caps[..k + 1])
  {
    assert forall j :: 0 <= j < k ==> caps[..k + 1][j] == caps[..k][j];
  }

  /** parse_rnadistance_result_safe: the nine values, or the error float('')
      raises at the first key whose colon no number follows. */
  method ParseRnaDistanceResultSafe(text: string) returns (r: Result<map<char, string>, ParseError>)
    ensures var caps := FindAll(text, 0);
      && (r.Ok? <==> NoEmptyCapture(caps))
      && (r.Ok? ==> r.value == Stored(DefaultValues(), caps))
      && (r.Err? ==> exists k :: 0 <= k < |caps| && NoEmptyCapture(caps[..k]) && caps[k].value == []
                                && r.error == EmptyValue(caps[k].param))
  {
    var caps := FindAll(text, 0);
    var values := DefaultValues();
    var k := 0;
    while k < |caps|
      invariant k <= |caps|
      invariant NoEmptyCapture(caps[..k])
      invariant values == Stored(DefaultValues(), caps[..k])
    {
      var c := caps[k];
      if c.value == [] {
        return Err(EmptyValue(c.param));
      }
      assert caps[..k + 1][..k] == caps[..k];
      NoEmptyExtend(caps, k);
      values := values[c.param := c.value];
      k := k + 1;
    }
    assert caps[..k] == caps;
    return Ok(values);
  }

  /** The result always has exactly the nine keys, and each holds the
      value of its last capture, or 0.0 when the text has none. */
  lemma {:induction false} StoredLastWins(caps: seq<Capture>, param: char)
    requires forall k :: 0 <= k < |caps| ==> caps[k].param in ParamNames
    ensures forall c :: c in Stored(DefaultValues(), caps) <==> c in ParamNames
    ensures param in ParamNames ==>
      Stored(DefaultValues(), caps)[param] == match LastCapture(caps, param)
                                              case Some(v) => v
                                              case None => DefaultValue
  {
    if caps != [] {
      StoredLastWins(caps[..|caps| - 1], param);
    }
  }

  lemma {:induction false} LeadingSpacesOf(sp: string, rest: string)
    requires AllSpace(Py, sp) && (rest == [] || !IsPySpace(rest[0]))
    ensures LeadingSpaces(sp + rest) == |sp|
  {
    if sp != [] {
      Uncons(sp, rest);
      assert IsSpace(Py, sp[0]);
      LeadingSpacesOf(sp[1..], rest);
    } else {
      Assoc(rest, [], []);
    }
  }

  /** A key, a colon and white space with no number after them: findall
      captures the empty string for it, and the parse fails with that key. */
  lemma KeyWithoutNumber(param: char, sp: string, rest: string)
    requires param in ParamNames && AllSpace(Py, sp)
    requires (rest == [] || !IsPySpace(rest[0])) && !StartsNumber(rest)
    ensures var caps := FindAll([param, ':'] + (sp + rest), 0);
      caps != [] && caps[0] == Capture(param, []) && !NoEmptyCapture(caps)
  {
    var t := [param, ':'] + (sp + rest);
    assert t[2..] == sp + rest;
    LeadingSpacesOf(sp, rest);
    assert t[2 + |sp|..] == rest;
  }

  /** A number text starts with a digit or a minus, and so does anything
      it begins. */
  lemma NumberTextStart(v: string, rest: string)
    requires IsNumberText(v)
    ensures v != [] && (v + rest)[0] == v[0] && !IsPySpace(v[0])
  {
    var m := if v != [] && v[0] == '-' then v[1..] else v;
    var k :| 0 < k <= |m| && AllDigits(m[..k]) && (k == |m| || (m[k] == '.' && AllDigits(m[k + 1..])));
    assert AllDigits(m[..k]);
    assert IsDigit(m[..k][0]);
  }

  /** After a key, its colon and white space, the value starts where the
      white space ends. */
  lemma ValueStartAfter(param: char, sp: string, u: string)
    requires param in ParamNames && AllSpace(Py, sp) && (u == [] || !IsPySpace(u[0]))
    ensures var t := [param, ':'] + (sp + u);
      KeyColonAt(t, 0) && ValueStart(t, 0) == 2 + |sp| && t[2 + |sp|..] == u
  {
    var t := [param, ':'] + (sp + u);
    assert t[2..] == sp + u;
    LeadingSpacesOf(sp, u);
    assert t[2 + |sp|..] == u;
  }

  /** Where a longest number prefix follows the key at i, the match
      captures it. */
  lemma {:induction false} MatchAtNumber(t: string, i: nat, v: string)
    requires KeyColonAt(t, i) && LongestNumberPrefix(t[ValueStart(t, i)..], v)
    ensures MatchAt(t, i).Some? && MatchAt(t, i).value.0 == Capture(t[i], v)
    ensures MatchAt(t, i).value.1 == ValueStart(t, i) + |v|
  {
    LongestNumberPrefixUnique(t[ValueStart(t, i)..], v, MatchAt(t, i).value.0.value);
  }

  /** No text longer than v that begins v + rest is a number text. */
  predicate NotExtended(v: string, rest: string) {
    var u := v + rest;
    forall m :: |v| < m <= |u| ==> !IsNumberText(u[..m])
  }

  lemma LongestWhenNotExtended(v: string, rest: string)
    requires IsNumberText(v) && NotExtended(v, rest)
    ensures LongestNumberPrefix(v + rest, v)
  {
    assert (v + rest)[..|v|] == v;
  }

  /** A key, a colon, white space and a number text that the rest of the
      text does not extend: findall captures that number for the key. */
  lemma {:induction false} KeyWithNumber(param: char, sp: string, v: string, rest: string)
    requires param in ParamNames && AllSpace(Py, sp) && IsNumberText(v)
    requires NotExtended(v, rest)
    ensures var caps := FindAll([param, ':'] + (sp + (v + rest)), 0);
      caps != [] && caps[0] == Capture(param, v)
  {
    var t := [param, ':'] + (sp + (v + rest));
    KeyNumberText(param, sp, v, rest);
    FindAllNumber(t, v, 2 + |sp| + |v|);
  }

  /** In such a text the key stands at 0, the value starts after the
      white space, and v is the longest number there. */
  lemma KeyNumberText(param: char, sp: string, v: string, rest: string)
    requires param in ParamNames && AllSpace(Py, sp) && IsNumberText(v)
    requires NotExtended(v, rest)
    ensures var t := [param, ':'] + (sp + (v + rest));
      && KeyColonAt(t, 0) && t[0] == param && ValueStart(t, 0) == 2 + |sp|
      && LongestNumberPrefix(t[ValueStart(t, 0)..], v) && t[2 + |sp| + |v|..] == rest
  {
    var u := v + rest;
    NumberTextStart(v, rest);
    ValueStartAfter(param, sp, u);
    LongestWhenNotExtended(v, rest);
    var t := [param, ':'] + (sp + u);
    assert t[2 + |sp| + |v|..] == t[2 + |sp|..][|v|..];
    assert u[|v|..] == rest;
  }

  /** Where a longest number prefix follows the key at i, findall yields
      it first and resumes after it. */
  lemma {:induction false} FindAllNumber(t: string, v: string, e: nat)
    requires KeyColonAt(t, 0) && LongestNumberPrefix(t[ValueStart(t, 0)..], v)
    requires e == ValueStart(t, 0) + |v|
    ensures e <= |t| && FindAll(t, 0) == [Capture(t[0], v)] + FindAll(t, e)
  {
    MatchAtNumber(t, 0, v);
    FindAllAtMatch(t, 0, Capture(t[0], v), e);
  }

  /** The same text with no other key and colon after the number: the
      parse keeps that number for the key and 0.0 for the other eight. */
  lemma {:induction false} KeyWithNumberAlone(param: char, sp: string, v: string, rest: string)
    requires param in ParamNames && AllSpace(Py, sp) && IsNumberText(v)
    requires NotExtended(v, rest)
    requires NoKeyColonFrom(rest, 0)
    ensures var caps := FindAll([param, ':'] + (sp + (v + rest)), 0);
      && caps == [Capture(param, v)] && NoEmptyCapture(caps)
      && Stored(DefaultValues(), caps) == DefaultValues()[param := v]
  {
    var t := [param, ':'] + (sp + (v + rest));
    var e := 2 + |sp| + |v|;
    KeyNumberText(param, sp, v, rest);
    assert t[e..] == rest;
    NoKeyColonSuffix(t, e);
    FindAllSingleNumber(t, v, e);
  }

  /** A key whose number is followed by no other key and colon is the only
      capture, and the stored values are the defaults with that number. */
  lemma {:induction false} FindAllSingleNumber(t: string, v: string, e: nat)
    requires KeyColonAt(t, 0) && LongestNumberPrefix(t[ValueStart(t, 0)..], v) && IsNumberText(v)
    requires e == ValueStart(t, 0) + |v| && e <= |t| && NoKeyColonFrom(t, e)
    ensures var caps := FindAll(t, 0);
      && caps == [Capture(t[0], v)] && NoEmptyCapture(caps)
      && Stored(DefaultValues(), caps) == DefaultValues()[t[0] := v]
  {
    FindAllNumber(t, v, e);
    assert FindAll(t, e) == [];
    NumberTextStart(v, []);
    assert [Capture(t[0], v)][..0] == [];
  }

  /** Where the pattern matches at i, findall yields that capture and
      resumes after it. */
  lemma {:induction false} FindAllAtMatch(t: string, i: nat, c: Capture, e: nat)
    requires i < |t| && MatchAt(t, i).Some? && MatchAt(t, i).value.0 == c && MatchAt(t, i).value.1 == e
    ensures e <= |t| && FindAll(t, i) == [c] + FindAll(t, e)
  {
  }

  /** A suffix free of key-and-colon pairs leaves none from its start on. */
  lemma NoKeyColonSuffix(t: string, e: nat)
    requires e <= |t| && NoKeyColonFrom(t[e..], 0)
    ensures NoKeyColonFrom(t, e)
  {
    forall j | e <= j < |t|
      ensures !KeyColonAt(t, j)
    {
      assert t[j] == t[e..][j - e];
      if j + 1 < |t| {
        assert t[j + 1] == t[e..][j - e + 1];
      }
      assert !KeyColonAt(t[e..], j - e);
    }
  }

  /** With one key and its number, the parse succeeds with that number for
      the key and 0.0 for the others. */
  method ParseKeyWithNumber(param: char, sp: string, v: string, rest: string)
    returns (r: Result<map<char, string>, ParseError>)
    requires param in ParamNames && AllSpace(Py, sp) && IsNumberText(v)
    requires NotExtended(v, rest)
    requires NoKeyColonFrom(rest, 0)
    ensures r == Ok(DefaultValues()[param := v])
  {
    KeyWithNumberAlone(param, sp, v, rest);
    r := ParseRnaDistanceResultSafe([param, ':'] + (sp + (v + rest)));
  }

  /** Every position of ps is smaller than the next. */
  predicate Increasing(ps: seq<nat>) {
    forall k, l :: 0 <= k < l < |ps| ==> ps[k] < ps[l]
  }

  /** Every position of ps is at or after i and has a key and a colon. */
  predicate KeyColonsFrom(t: string, i: nat, ps: seq<nat>) {
    forall k :: 0 <= k < |ps| ==> i <= ps[k] && KeyColonAt(t, ps[k])
  }

  /** The positions at or after i where a key letter and a colon stand,
      from left to right. */
  function KeyColonPositions(t: string, i: nat): (ps: seq<nat>)
    requires i <= |t|
    ensures KeyColonsFrom(t, i, ps)
    decreases |t| - i
  {
    if i == |t| then []
    else if KeyColonAt(t, i) then
      var rest := KeyColonPositions(t, i + 1);
      KeyColonsCons(t, i, rest);
      [i] + rest
    else
      var rest := KeyColonPositions(t, i + 1);
      KeyColonsSkip(t, i, rest);
      rest
  }

  lemma KeyColonsCons(t: string, i: nat, ps: seq<nat>)
    requires KeyColonAt(t, i) && KeyColonsFrom(t, i + 1, ps)
    ensures KeyColonsFrom(t, i, [i] + ps)
  {
    forall k | 0 < k < |[i] + ps|
      ensures i <= ([i] + ps)[k] && KeyColonAt(t, ([i] + ps)[k])
    {
      assert ([i] + ps)[k] == ps[k - 1];
    }
  }

  lemma KeyColonsSkip(t: string, i: nat, ps: seq<nat>)
    requires KeyColonsFrom(t, i + 1, ps)
    ensures KeyColonsFrom(t, i, ps)
  {
  }

  /** The positions are complete and in text order. */
  lemma {:induction false} KeyColonPositionsExact(t: string, i: nat)
    requires i <= |t|
    ensures forall j :: i <= j < |t| && KeyColonAt(t, j) ==> j in KeyColonPositions(t, i)
    ensures Increasing(KeyColonPositions(t, i))
    decreases |t| - i
  {
    if i < |t| {
      KeyColonPositionsExact(t, i + 1);
      var rest := KeyColonPositions(t, i + 1);
      if KeyColonAt(t, i) {
        assert KeyColonPositions(t, i) == [i] + rest;
        IncreasingCons(t, i, rest);
      }
    }
  }

  lemma IncreasingCons(t: string, i: nat, ps: seq<nat>)
    requires KeyColonsFrom(t, i + 1, ps) && Increasing(ps)
    ensures Increasing([i] + ps)
  {
    forall k, l | 0 <= k < l < |[i] + ps|
      ensures ([i] + ps)[k] < ([i] + ps)[l]
    {
      assert ([i] + ps)[l] == ps[l - 1];
      if k > 0 {
        assert ([i] + ps)[k] == ps[k - 1];
      }
    }
  }

  /** A number text is made of digits, a minus and a point only. */
  lemma NumberTextChar(v: string, x: nat)
    requires IsNumberText(v) && x < |v|
    ensures v[x] == '-' || v[x] == '.' || IsDigit(v[x])
  {
    var sign := if v != [] && v[0] == '-' then 1 else 0;
    var m := v[sign..];
    var k :| 0 < k <= |m| && AllDigits(m[..k]) && (k == |m| || (m[k] == '.' && AllDigits(m[k + 1..])));
    if x >= sign {
      var y := x - sign;
      assert v[x] == m[y];
      if y < k {
        assert AllDigits(m[..k]);
        assert m[..k][y] == m[y];
      } else if y > k {
        assert AllDigits(m[k + 1..]);
        assert m[k + 1..][y - k - 1] == m[y];
      }
    }
  }

  /** No key letter stands in the white space after a colon. */
  lemma SpaceHasNoKey(t: string, a: nat, s: nat)
    requires a <= s <= |t| && AllSpace(Py, t[a..s])
    ensures forall j :: a <= j < s ==> t[j] !in ParamNames
  {
    forall j | a <= j < s
      ensures t[j] !in ParamNames
    {
      assert IsPySpace(t[a..s][j - a]);
    }
  }

  /** No key letter stands in a number text at position s of t. */
  lemma NumberHasNoKey(t: string, s: nat, v: string)
    requires s + |v| <= |t| && t[s..s + |v|] == v && (v == [] || IsNumberText(v))
    ensures forall j :: s <= j < s + |v| ==> t[j] !in ParamNames
  {
    forall j | s <= j < s + |v|
      ensures t[j] !in ParamNames
    {
      assert t[j] == v[j - s];
      NumberTextChar(v, j - s);
    }
  }

  /** Between a key and the end of its match no other key and colon
      stand: the colon, the white space and the number's characters are
      not key letters. */
  lemma MatchSpanHasNoKey(t: string, i: nat, e: nat)
    requires KeyColonAt(t, i) && e == MatchAt(t, i).value.1
    ensures NoKeyColonBetween(t, i + 1, e)
  {
    var s := ValueStart(t, i);
    var v := MatchAt(t, i).value.0.value;
    assert t[s..][..|v|] == t[s..s + |v|];
    SpaceHasNoKey(t, i + 2, s);
    NumberHasNoKey(t, s, v);
  }

  /** No key letter followed by a colon stands from i up to e. */
  predicate NoKeyColonBetween(t: string, i: nat, e: nat) {
    forall j :: i <= j < e ==> !KeyColonAt(t, j)
  }

  lemma PositionsStep(t: string, i: nat)
    requires i < |t| && !KeyColonAt(t, i)
    ensures KeyColonPositions(t, i) == KeyColonPositions(t, i + 1)
  {
  }

  /** Positions where no key and colon stand contribute no position. */
  lemma {:induction false} PositionsSkip(t: string, i: nat, e: nat)
    requires i <= e <= |t| && NoKeyColonBetween(t, i, e)
    ensures KeyColonPositions(t, i) == KeyColonPositions(t, e)
    decreases e - i
  {
    if i < e {
      assert !KeyColonAt(t, i);
      PositionsStep(t, i);
      PositionsSkip(t, i + 1, e);
    }
  }

  /** Where no key and colon stand at i, findall moves on one position. */
  lemma FindAllSkip(t: string, i: nat)
    requires i < |t| && !KeyColonAt(t, i)
    ensures FindAll(t, i) == FindAll(t, i + 1)
  {
  }

  /** caps are the matches at the positions ps, one for one. */
  predicate MatchesAt(t: string, ps: seq<nat>, caps: seq<Capture>) {
    && |caps| == |ps|
    && forall k :: 0 <= k < |ps| ==> ps[k] <= |t| && KeyColonAt(t, ps[k]) && caps[k] == MatchAt(t, ps[k]).value.0
  }

  lemma MatchesAtCons(t: string, i: nat, ps: seq<nat>, caps: seq<Capture>)
    requires KeyColonAt(t, i) && MatchesAt(t, ps, caps)
    ensures MatchesAt(t, [i] + ps, [MatchAt(t, i).value.0] + caps)
  {
    var c := MatchAt(t, i).value.0;
    forall k | 0 < k < |[i] + ps|
      ensures ([i] + ps)[k] <= |t| && KeyColonAt(t, ([i] + ps)[k])
        && ([c] + caps)[k] == MatchAt(t, ([i] + ps)[k]).value.0
    {
      assert ([i] + ps)[k] == ps[k - 1];
      assert ([c] + caps)[k] == caps[k - 1];
    }
  }

  /** findall yields one capture for each position from i where a key and
      a colon stand, in text order, and that capture is the match there. */
  lemma {:induction false} FindAllInTextOrder(t: string, i: nat)
    requires i <= |t|
    ensures MatchesAt(t, KeyColonPositions(t, i), FindAll(t, i))
    decreases |t| - i
  {
    if i == |t| {
      OrderAtEnd(t);
    } else if KeyColonAt(t, i) {
      var e := MatchAt(t, i).value.1;
      FindAllInTextOrder(t, e);
      OrderAtMatch(t, i, e);
    } else {
      FindAllInTextOrder(t, i + 1);
      OrderAtSkip(t, i);
    }
  }

  lemma OrderAtEnd(t: string)
    ensures MatchesAt(t, KeyColonPositions(t, |t|), FindAll(t, |t|))
  {
    assert FindAll(t, |t|) == [] && KeyColonPositions(t, |t|) == [];
  }

  lemma OrderAtMatch(t: string, i: nat, e: nat)
    requires KeyColonAt(t, i) && e == MatchAt(t, i).value.1
    requires MatchesAt(t, KeyColonPositions(t, e), FindAll(t, e))
    ensures MatchesAt(t, KeyColonPositions(t, i), FindAll(t, i))
  {
    FindAllAtMatch(t, i, MatchAt(t, i).value.0, e);
    MatchSpanHasNoKey(t, i, e);
    PositionsSkip(t, i + 1, e);
    assert KeyColonPositions(t, i) == [i] + KeyColonPositions(t, e);
    MatchesAtCons(t, i, KeyColonPositions(t, e), FindAll(t, e));
  }

  lemma OrderAtSkip(t: string, i: nat)
    requires i < |t| && !KeyColonAt(t, i)
    requires MatchesAt(t, KeyColonPositions(t, i + 1), FindAll(t, i + 1))
    ensures MatchesAt(t, KeyColonPositions(t, i), FindAll(t, i))
  {
    FindAllSkip(t, i);
    assert KeyColonPositions(t, i) == KeyColonPositions(t, i + 1);
  }

  /** The last capture for param is the one at k when no later capture has
      that key. */
  lemma {:induction false} LastCaptureAt(caps: seq<Capture>, k: nat, param: char)
    requires k < |caps| && caps[k].param == param
    requires forall l :: k < l < |caps| ==> caps[l].param != param
    ensures LastCapture(caps, param) == Some(caps[k].value)
    decreases |caps|
  {
    if k < |caps| - 1 {
      var init := caps[..|caps| - 1];
      assert init[k] == caps[k];
      assert forall l :: k < l < |init| ==> init[l] == caps[l];
      LastCaptureAt(init, k, param);
    }
  }

  /** When a key stands in the text several times, the value stored for
      it is the one captured at its last occurrence. */
  lemma ParseLastOccurrenceWins(t: string, j: nat)
    requires KeyColonAt(t, j)
    requires forall l :: j < l < |t| && KeyColonAt(t, l) ==> t[l] != t[j]
    ensures var values := Stored(DefaultValues(), FindAll(t, 0));
      t[j] in values && values[t[j]] == MatchAt(t, j).value.0.value
  {
    var caps := FindAll(t, 0);
    var ps := KeyColonPositions(t, 0);
    FindAllInTextOrder(t, 0);
    KeyColonPositionsExact(t, 0);
    assert j in ps;
    var k :| 0 <= k < |ps| && ps[k] == j;
    LaterCapturesOtherKey(t, ps, caps, k);
    LastCaptureAt(caps, k, t[j]);
    StoredLastWins(caps, t[j]);
  }

  /** The captures after the one at k come from later positions, and so
      hold other keys when the key at k does not stand there again. */
  lemma LaterCapturesOtherKey(t: string, ps: seq<nat>, caps: seq<Capture>, k: nat)
    requires MatchesAt(t, ps, caps) && Increasing(ps) && k < |ps|
    requires forall l :: ps[k] < l < |t| && KeyColonAt(t, l) ==> t[l] != t[ps[k]]
    ensures caps[k].param == t[ps[k]]
    ensures forall l :: k < l < |caps| ==> caps[l].param != t[ps[k]]
  {
    forall l | k < l < |caps|
      ensures caps[l].param != t[ps[k]]
    {
      assert ps[k] < ps[l] && KeyColonAt(t, ps[l]);
      assert caps[l].param == t[ps[l]];
    }
  }

  /** The parse of a text with no empty capture gives each key the value
      at its last occurrence. */
  method ParseLastOccurrence(t: string, j: nat) returns (r: Result<map<char, string>, ParseError>)
    requires KeyColonAt(t, j)
    requires forall l :: j < l < |t| && KeyColonAt(t, l) ==> t[l] != t[j]
    requires NoEmptyCapture(FindAll(t, 0))
    ensures r.Ok? && t[j] in r.value && r.value[t[j]] == MatchAt(t, j).value.0.value
  {
    ParseLastOccurrenceWins(t, j);
    StoredLastWins(FindAll(t, 0), t[j]);
    r := ParseRnaDistanceResultSafe(t);
  }

  // ---------------------------------------------------------------------
  // get_dbSNP: from the clinical tables record and the flanking sequence
  // to the wild-type and mutant pair

  /** Bases fetched on each side of the variant; the variant is at this
      0-based index of the fetched sequence. */
  const Flank: nat := 50

  datatype SnpError =
    | SnpIdMismatch
    | InvalidAlleles
      /** sequence[flank] raised IndexError; the route does not catch it. */
    | SequenceTooShort
    | ReferenceMismatch(expected: char, found: char)

  /** alleles.split("/") giving exactly two one-character alleles: the
      reference and the alternative. */
  function ParseAlleles(alleles: string): Option<(char, char)> {
    var parts := SplitOn(alleles, '/');
    if |parts| == 2 && |parts[0]| == 1 && |parts[1]| == 1 then Some((parts[0][0], parts[1][0])) else None
  }

  /** The accepted allele strings are exactly "x/y" with neither side a
      slash. */
  lemma AllelesShape(alleles: string)
    ensures ParseAlleles(alleles).Some? <==>
      |alleles| == 3 && alleles[1] == '/' && alleles[0] != '/' && alleles[2] != '/'
    ensures ParseAlleles(alleles).Some? ==> ParseAlleles(alleles).value == (alleles[0], alleles[2])
  {
    var parts := SplitOn(alleles, '/');
    if |parts| == 2 && |parts[0]| == 1 && |parts[1]| == 1 {
      JoinSplit(alleles, '/');
      assert alleles == parts[0] + ['/'] + parts[1];
    } else if |alleles| == 3 && alleles[1] == '/' && alleles[0] != '/' && alleles[2] != '/' {
      var p := [[alleles[0]], [alleles[2]]];
      assert JoinWith(p, '/') == alleles;
      SplitJoin(p, '/');
    }
  }

  /** The tail of get_dbSNP: checks the record against the requested id,
      the allele pair and the reference base, then copies the sequence and
      puts the alternative allele at index Flank. */
  method BuildSnpPair(requested: string, rsNum: string, alleles: string, sequence: string)
    returns (r: Result<(string, string), SnpError>)
    ensures r == Err(SnpIdMismatch) <==> rsNum != requested
    ensures rsNum == requested ==> (r == Err(InvalidAlleles) <==> ParseAlleles(alleles).None?)
    ensures rsNum == requested && ParseAlleles(alleles).Some? ==>
      (r == Err(SequenceTooShort) <==> |sequence| <= Flank)
    ensures r.Err? && r.error.ReferenceMismatch? <==>
      rsNum == requested && ParseAlleles(alleles).Some? && |sequence| > Flank
      && sequence[Flank] != ParseAlleles(alleles).value.0
    ensures r.Err? && r.error.ReferenceMismatch? ==>
      r.error == ReferenceMismatch(ParseAlleles(alleles).value.0, sequence[Flank])
    ensures r.Ok? ==>
      var (wild, mutant) := r.value;
      && wild == sequence && |mutant| == |sequence|
      && mutant[Flank] == ParseAlleles(alleles).value.1
      && forall i :: 0 <= i < |mutant| && i != Flank ==> mutant[i] == sequence[i]
  {
    if rsNum != requested {
      return Err(SnpIdMismatch);
    }
    var pair := ParseAlleles(alleles);
    if pair.None? {
      return Err(InvalidAlleles);
    }
    var (reference, alternative) := pair.value;
    if |sequence| <= Flank {
      return Err(SequenceTooShort);
    }
    if sequence[Flank] != reference {
      return Err(ReferenceMismatch(reference, sequence[Flank]));
    }
    var mutant := new char[|sequence|];
    var i := 0;
    while i < |sequence|
      invariant i <= |sequence|
      invariant mutant[..i] == sequence[..i]
    {
      mutant[i] := sequence[i];
      i := i + 1;
    }
    mutant[Flank] := alternative;
    return Ok((sequence, mutant[..]));
  }

  // ---------------------------------------------------------------------
  // total_mutations in analyze_single

  /** The progress denominator: three substitutions, one deletion and four
      insertions per position, plus four insertions at the end. */
  function TotalMutations(n: nat): nat {
    3 * n + n + 4 * (n + 1)
  }

  lemma {:induction false} NoForeign(s: string, i: nat)
    requires i <= |s| && AllNucleotides(s)
    ensures ForeignFrom(s, i) == 0
    decreases |s| - i
  {
    if i < |s| {
      NoForeign(s, i + 1);
    }
  }

  /** generate_mutations yields TotalMutations(n) variants plus one per
      character outside A, C, G, U; over A, C, G, U alone the denominator
      is exact. */
  lemma MutationCount(s: string)
    ensures |GenerateMutations(s)| == TotalMutations(|s|) + ForeignCount(s)
    ensures AllNucleotides(s) ==> |GenerateMutations(s)| == TotalMutations(|s|)
  {
    GenerateMutationsLayout(s);
    if AllNucleotides(s) {
      NoForeign(s, 0);
    }
  }
}
