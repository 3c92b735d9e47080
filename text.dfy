/// The handful of JavaScript and Python string operations that the pages and
/// the backend apply to sequences and to tool output: white space, trimming,
/// splitting on a separator, joining, digit runs and ASCII upper-casing.
module Text {

  datatype Option<+T> = None | Some(value: T)

  datatype Result<+T, +E> = Ok(value: T) | Err(error: E)

  /** Which language's notion of white space an operation uses. */
  datatype Dialect = Js | Py

  /** ECMAScript WhiteSpace and LineTerminator: what String.prototype.trim
      removes and what the regular-expression class \s matches. */
  predicate IsJsSpace(c: char) {
    c == '\t' || c == '\n' || c == '\U{000B}' || c == '\U{000C}' || c == '\r' || c == ' '
    || c == '\U{00A0}' || c == '\U{1680}' || ('\U{2000}' <= c <= '\U{200A}')
    || c == '\U{2028}' || c == '\U{2029}' || c == '\U{202F}' || c == '\U{205F}'
    || c == '\U{3000}' || c == '\U{FEFF}'
  }

  /** Python's str.isspace: what str.strip() and str.split() remove and what
      \s matches in a str pattern. */
  predicate IsPySpace(c: char) {
    ('\t' <= c <= '\r') || ('\U{001C}' <= c <= ' ') || c == '\U{0085}' || c == '\U{00A0}'
    || c == '\U{1680}' || ('\U{2000}' <= c <= '\U{200A}') || c == '\U{2028}' || c == '\U{2029}'
    || c == '\U{202F}' || c == '\U{205F}' || c == '\U{3000}'
  }

  predicate IsSpace(d: Dialect, c: char) {
    if d == Js then IsJsSpace(c) else IsPySpace(c)
  }

  predicate AllSpace(d: Dialect, s: string) {
    forall i :: 0 <= i < |s| ==> IsSpace(d, s[i])
  }

  predicate NoSpace(d: Dialect, s: string) {
    forall i :: 0 <= i < |s| ==> !IsSpace(d, s[i])
  }

  /** Leading white space removed (the left half of trim/strip). */
  function TrimStart(d: Dialect, s: string): (t: string)
    ensures |t| <= |s| && t == s[|s| - |t|..]
    ensures forall i :: 0 <= i < |s| - |t| ==> IsSpace(d, s[i])
    ensures t == [] || !IsSpace(d, t[0])
  {
    if s != [] && IsSpace(d, s[0]) then TrimStart(d, s[1..]) else s
  }

  /** Trailing white space removed (the right half of trim/strip). */
  function TrimEnd(d: Dialect, s: string): (t: string)
    ensures |t| <= |s| && t == s[..|t|]
    ensures AllSpace(d, s[|t|..])
    ensures t == [] || !IsSpace(d, t[|t| - 1])
  {
    if s != [] && IsSpace(d, s[|s| - 1]) then TrimEnd(d, s[..|s| - 1]) else s
  }

  /** Number of leading white-space characters that trimming drops. */
  function TrimOffset(d: Dialect, s: string): nat {
    |s| - |TrimStart(d, s)|
  }

  /** JavaScript's trim() (d == Js) or Python's strip() (d == Py): the
      infix left once white space is dropped at both ends. */
  function Trim(d: Dialect, s: string): (t: string)
    ensures TrimOffset(d, s) + |t| <= |s|
    ensures t == s[TrimOffset(d, s)..][..|t|]
    ensures t == [] || (!IsSpace(d, t[0]) && !IsSpace(d, t[|t| - 1]))
  {
    TrimEnd(d, TrimStart(d, s))
  }

  /** What trimming drops is white space, at both ends. */
  lemma TrimDropsSpace(d: Dialect, s: string)
    ensures var o, t := TrimOffset(d, s), Trim(d, s);
      s == s[..o] + t + s[o + |t|..] && AllSpace(d, s[..o]) && AllSpace(d, s[o + |t|..])
  {
    var u := TrimStart(d, s);
    var o, t := TrimOffset(d, s), Trim(d, s);
    TrimStartDrops(d, s);
    TrimEndDrops(d, u);
    Sandwich(s[..o], t, u[|t|..], s);
  }

  /** The three parts of a string cut in three. */
  lemma Sandwich(x: string, t: string, w: string, s: string)
    requires s == x + (t + w)
    ensures s == x + t + w && s[..|x|] == x && s[|x| + |t|..] == w
  {
    Assoc(x, t, w);
  }

  /** TrimStart drops a white-space prefix. */
  lemma TrimStartDrops(d: Dialect, s: string)
    ensures var o := TrimOffset(d, s); s == s[..o] + TrimStart(d, s) && AllSpace(d, s[..o])
  {
    var o := TrimOffset(d, s);
    SplitAt(s, o);
    assert forall i :: 0 <= i < o ==> s[..o][i] == s[i];
  }

  /** TrimEnd drops a white-space suffix. */
  lemma TrimEndDrops(d: Dialect, u: string)
    ensures var t := TrimEnd(d, u); u == t + u[|t|..] && AllSpace(d, u[|t|..])
  {
    SplitAt(u, |TrimEnd(d, u)|);
  }

  lemma SplitAt(u: string, n: nat)
    requires n <= |u|
    ensures u == u[..n] + u[n..]
  {
  }

  lemma HeadTail(u: string)
    requires u != []
    ensures u == [u[0]] + u[1..]
  {
  }

  lemma Assoc(a: string, b: string, c: string)
    ensures (a + b) + c == a + (b + c)
    ensures [] + a == a && a + [] == a
  {
  }

  /** The first character and the rest of a concatenation whose left
      part is not empty. */
  lemma Uncons(a: string, b: string)
    requires a != []
    ensures a + b != [] && (a + b)[0] == a[0] && (a + b)[1..] == a[1..] + b
  {
    HeadTail(a);
    ConsAssoc(a[0], a[1..], b);
  }

  lemma ConsAssoc(c: char, a: string, b: string)
    ensures [c] + (a + b) == ([c] + a) + b
    ensures ([c] + (a + b))[1..] == a + b
  {
  }

  /** Trimming leaves a string with no white space at either end as it is. */
  lemma TrimKeeps(d: Dialect, s: string)
    requires s == [] || (!IsSpace(d, s[0]) && !IsSpace(d, s[|s| - 1]))
    ensures Trim(d, s) == s
  {
  }

  /** White space after a text whose ends are not white space is all that
      trimming drops. */
  lemma TrimTrailing(d: Dialect, s: string, w: string)
    requires s != [] && !IsSpace(d, s[0]) && !IsSpace(d, s[|s| - 1]) && AllSpace(d, w)
    ensures Trim(d, s + w) == s
  {
    assert (s + w)[0] == s[0];
    TrimEndSpaces(d, s, w);
  }

  lemma {:induction false} TrimEndSpaces(d: Dialect, s: string, w: string)
    requires s != [] && !IsSpace(d, s[|s| - 1]) && AllSpace(d, w)
    ensures TrimEnd(d, s + w) == s
  {
    if w == [] {
      Assoc(s, [], []);
    } else {
      var v := w[..|w| - 1];
      assert (s + w)[|s + w| - 1] == w[|w| - 1];
      assert (s + w)[..|s + w| - 1] == s + v;
      TrimEndSpaces(d, s, v);
    }
  }

  /** s.replace(/\s+/g, ""): every white-space character deleted. */
  function RemoveSpaces(d: Dialect, s: string): (r: string)
    ensures NoSpace(d, r) && |r| <= |s|
    ensures NoSpace(d, s) ==> r == s
  {
    if s == [] then []
    else if IsSpace(d, s[0]) then RemoveSpaces(d, s[1..])
    else [s[0]] + RemoveSpaces(d, s[1..])
  }

  predicate StartsWith(s: string, prefix: string) {
    |prefix| <= |s| && s[..|prefix|] == prefix
  }

  predicate EndsWith(s: string, suffix: string) {
    |suffix| <= |s| && s[|s| - |suffix|..] == suffix
  }

  /** parts.join(sep) in JavaScript, sep.join(parts) in Python. */
  function JoinWith(parts: seq<string>, sep: char): string {
    if |parts| == 0 then []
    else if |parts| == 1 then parts[0]
    else parts[0] + [sep] + JoinWith(parts[1..], sep)
  }

  /** The characters left are exactly the non-space characters of s. */
  lemma {:induction false} RemoveSpacesChars(d: Dialect, s: string)
    ensures forall c :: c in RemoveSpaces(d, s) <==> c in s && !IsSpace(d, c)
  {
    if s != [] {
      RemoveSpacesChars(d, s[1..]);
      assert s == [s[0]] + s[1..];
    }
  }

  /** parts.join("") in JavaScript. */
  function Concat(parts: seq<string>): string {
    if parts == [] then [] else parts[0] + Concat(parts[1..])
  }

  /** A character of any piece is a character of the concatenation. */
  lemma {:induction false} ConcatHas(parts: seq<string>, i: nat, c: char)
    requires i < |parts| && c in parts[i]
    ensures c in Concat(parts)
  {
    if i > 0 {
      ConcatHas(parts[1..], i - 1, c);
    }
  }

  /** s.split(sep) for a one-character separator, in JavaScript and in
      Python alike: empty pieces are kept and there is always one piece. */
  function SplitOn(s: string, sep: char): (parts: seq<string>)
    ensures |parts| >= 1
    ensures forall i :: 0 <= i < |parts| ==> sep !in parts[i]
  {
    if s == [] then [[]]
    else
      var rest := SplitOn(s[1..], sep);
      if s[0] == sep then [[]] + rest else [[s[0]] + rest[0]] + rest[1..]
  }

  /** Joining the pieces of a split with the separator gives back the string. */
  lemma {:induction false} JoinSplit(s: string, sep: char)
    ensures JoinWith(SplitOn(s, sep), sep) == s
  {
    if s != [] {
      JoinSplit(s[1..], sep);
      var rest := SplitOn(s[1..], sep);
      if s[0] == sep {
        assert SplitOn(s, sep) == [[]] + rest;
      } else {
        var parts := SplitOn(s, sep);
        assert parts == [[s[0]] + rest[0]] + rest[1..];
        if |rest| == 1 {
          assert JoinWith(parts, sep) == [s[0]] + rest[0];
        } else {
          assert parts[1..] == rest[1..];
          assert JoinWith(parts, sep) == [s[0]] + (rest[0] + [sep] + JoinWith(rest[1..], sep));
        }
      }
    }
  }

  /** Splitting pieces that are free of the separator after joining them
      gives back the pieces. */
  lemma {:induction false} SplitJoin(parts: seq<string>, sep: char)
    requires |parts| >= 1
    requires forall i :: 0 <= i < |parts| ==> sep !in parts[i]
    ensures SplitOn(JoinWith(parts, sep), sep) == parts
  {
    if |parts| == 1 {
      SplitNoSeparator(parts[0], sep);
    } else {
      SplitJoin(parts[1..], sep);
      SplitAfterSeparator(parts[0], JoinWith(parts[1..], sep), sep);
      assert JoinWith(parts, sep) == parts[0] + [sep] + JoinWith(parts[1..], sep);
      assert [parts[0]] + parts[1..] == parts;
    }
  }

  lemma {:induction false} SplitNoSeparator(s: string, sep: char)
    requires sep !in s
    ensures SplitOn(s, sep) == [s]
  {
    if s != [] {
      SplitNoSeparator(s[1..], sep);
      assert [s[0]] + s[1..] == s;
    }
  }

  /** A piece free of the separator, the separator, then anything: the piece
      comes first and the split of the rest follows. */
  lemma {:induction false} SplitAfterSeparator(head: string, tail: string, sep: char)
    requires sep !in head
    ensures SplitOn(head + [sep] + tail, sep) == [head] + SplitOn(tail, sep)
  {
    if head == [] {
      assert ([] + [sep] + tail)[1..] == tail;
    } else {
      SplitAfterSeparator(head[1..], tail, sep);
      assert (head + [sep] + tail)[1..] == head[1..] + [sep] + tail;
      assert [head[0]] + head[1..] == head;
    }
  }

  predicate IsDigit(c: char) {
    '0' <= c <= '9'
  }

  predicate AllDigits(s: string) {
    forall i :: 0 <= i < |s| ==> IsDigit(s[i])
  }

  /** Length of the longest prefix free of white space. */
  function WordRun(d: Dialect, s: string): (n: nat)
    ensures n <= |s| && NoSpace(d, s[..n])
    ensures n == |s| || IsSpace(d, s[n])
  {
    if s != [] && !IsSpace(d, s[0]) then 1 + WordRun(d, s[1..]) else 0
  }

  /** Python's str.split() with no argument: the maximal runs of non-space
      characters, in order. */
  function Tokens(s: string): (ts: seq<string>)
    ensures forall i :: 0 <= i < |ts| ==> ts[i] != [] && NoSpace(Py, ts[i])
    decreases |s|
  {
    if s == [] then []
    else if IsPySpace(s[0]) then Tokens(s[1..])
    else
      var n := WordRun(Py, s);
      [s[..n]] + Tokens(s[n..])
  }

  lemma {:induction false} TokensSkipSpaces(lead: string, s: string)
    requires AllSpace(Py, lead)
    ensures Tokens(lead + s) == Tokens(s)
  {
    if lead != [] {
      var ls := lead + s;
      assert IsSpace(Py, lead[0]) && ls[0] == lead[0];
      assert ls[1..] == lead[1..] + s;
      TokensSkipSpaces(lead[1..], s);
      assert Tokens(ls) == Tokens(ls[1..]);
    } else {
      assert lead + s == s;
    }
  }

  /** A word followed by white space or by nothing is the first token. */
  lemma TokensWord(word: string, s: string)
    requires word != [] && NoSpace(Py, word)
    requires s == [] || IsPySpace(s[0])
    ensures Tokens(word + s) == [word] + Tokens(s)
  {
    WordRunOf(word, s);
    assert (word + s)[..|word|] == word;
    assert (word + s)[|word|..] == s;
  }

  lemma {:induction false} WordRunOf(word: string, s: string)
    requires NoSpace(Py, word)
    requires s == [] || IsPySpace(s[0])
    ensures WordRun(Py, word + s) == |word|
  {
    if word != [] {
      WordRunOf(word[1..], s);
      assert (word + s)[1..] == word[1..] + s;
    }
  }

  lemma {:induction false} WordRunExtend(x: string, ws: string)
    requires ws == [] || IsPySpace(ws[0])
    ensures WordRun(Py, x + ws) == WordRun(Py, x)
  {
    if x == [] {
      assert x + ws == ws;
    } else if !IsPySpace(x[0]) {
      WordRunExtend(x[1..], ws);
      assert (x + ws)[1..] == x[1..] + ws;
    }
  }

  /** White space at the end adds no token. */
  lemma {:induction false} TokensDropTrailing(x: string, ws: string)
    requires AllSpace(Py, ws)
    ensures Tokens(x + ws) == Tokens(x)
    decreases |x|
  {
    if x == [] {
      TokensSkipSpaces(ws, []);
      assert ws + [] == ws && x + ws == ws;
    } else if IsPySpace(x[0]) {
      assert (x + ws)[1..] == x[1..] + ws;
      TokensDropTrailing(x[1..], ws);
    } else {
      var n := WordRun(Py, x);
      assert ws == [] || IsSpace(Py, ws[0]);
      WordRunExtend(x, ws);
      assert (x + ws)[..n] == x[..n];
      assert (x + ws)[n..] == x[n..] + ws;
      TokensDropTrailing(x[n..], ws);
    }
  }

  /** str.split() ignores what str.strip() removes. */
  lemma TokensOfTrim(s: string)
    ensures Tokens(Trim(Py, s)) == Tokens(s)
  {
    var t := Trim(Py, s);
    var o := TrimOffset(Py, s);
    TrimDropsSpace(Py, s);
    assert s == s[..o] + (t + s[o + |t|..]);
    TokensSkipSpaces(s[..o], t + s[o + |t|..]);
    TokensDropTrailing(t, s[o + |t|..]);
  }

  /** White space, then a word, then white space or nothing: the word is
      the first token. */
  lemma TokensSpacedWord(lead: string, word: string, rest: string)
    requires AllSpace(Py, lead) && word != [] && NoSpace(Py, word)
    requires rest == [] || IsPySpace(rest[0])
    ensures Tokens(lead + (word + rest)) == [word] + Tokens(rest)
  {
    TokensWord(word, rest);
    TokensSkipSpaces(lead, word + rest);
  }

  /** Two words with white space before, between and after them are the
      first two tokens. */
  lemma TokensOfTwoWords(lead: string, first: string, gap: string, second: string, tail: string)
    requires AllSpace(Py, lead) && AllSpace(Py, gap) && gap != []
    requires first != [] && NoSpace(Py, first) && second != [] && NoSpace(Py, second)
    requires tail == [] || IsPySpace(tail[0])
    ensures Tokens(lead + (first + (gap + (second + tail)))) == [first, second] + Tokens(tail)
  {
    var afterFirst := gap + (second + tail);
    TokensSpacedWord(gap, second, tail);
    assert IsSpace(Py, gap[0]) && afterFirst[0] == gap[0];
    TokensSpacedWord(lead, first, afterFirst);
  }

  /** 'a'..'z' mapped to 'A'..'Z', everything else kept (toUpperCase on the
      characters that decide anything here). */
  function UpperChar(c: char): (u: char)
    ensures ('a' <= c <= 'z') ==> 'A' <= u <= 'Z' && u as int == c as int - 32
    ensures !('a' <= c <= 'z') ==> u == c
  {
    if 'a' <= c <= 'z' then (c as int - 32) as char else c
  }

  function Upper(s: string): (u: string)
    ensures |u| == |s|
    ensures forall i :: 0 <= i < |s| ==> u[i] == UpperChar(s[i])
  {
    if s == [] then [] else [UpperChar(s[0])] + Upper(s[1..])
  }
}
