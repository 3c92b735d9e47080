/// What the sequence pages share: the file-type choice made from a file
/// name, the outcome of the dbSNP request, and the reading of an uploaded
/// file as FASTA (header lines dropped) or as TXT (first line only).
module Forms {
  import opened Text

  /** The parser a file name selects. */
  datatype FileKind = Fasta | Txt

  /** What the dbSNP request gave back: the body's sequence field, a response
      that was not ok, or an exception with its message. */
  datatype FetchOutcome = Fetched(sequence: string) | NotOk | Failed(message: string)

  /** The character class [ACGUTacgut]. */
  predicate IsBase(c: char) {
    c in "ACGUTacgut"
  }

  /** The anchored regular-expression scan /^[ACGUTacgut]*$/, one character
      at a time: it succeeds exactly when every character is a base. */
  function AllBases(s: string): (b: bool)
    ensures b <==> forall i :: 0 <= i < |s| ==> IsBase(s[i])
  {
    s == [] || (IsBase(s[0]) && AllBases(s[1..]))
  }

  /** file.name.endsWith(".fasta") ? "fasta" : file.name.endsWith(".txt") ?
      "txt" : null */
  function FileKindOf(name: string): (k: Option<FileKind>)
    ensures k == Some(Fasta) <==> EndsWith(name, ".fasta")
    ensures k == Some(Txt) <==> EndsWith(name, ".txt")
    ensures k.None? <==> !EndsWith(name, ".fasta") && !EndsWith(name, ".txt")
  {
    assert EndsWith(name, ".fasta") ==> name[|name| - 1] == 'a';
    assert EndsWith(name, ".txt") ==> name[|name| - 1] == 't';
    if EndsWith(name, ".fasta") then Some(Fasta)
    else if EndsWith(name, ".txt") then Some(Txt)
    else None
  }

  /** Any name followed by the extension selects that extension's parser. */
  lemma FileKindOfExtension(base: string)
    ensures FileKindOf(base + ".fasta") == Some(Fasta)
    ensures FileKindOf(base + ".txt") == Some(Txt)
  {
    assert (base + ".fasta")[|base|..] == ".fasta";
    assert (base + ".txt")[|base|..] == ".txt";
  }

  /** lines.map(line => line.trim()) */
  function TrimEach(lines: seq<string>): (r: seq<string>)
    ensures |r| == |lines|
    ensures forall i :: 0 <= i < |lines| ==> r[i] == Trim(Js, lines[i])
  {
    if lines == [] then [] else [Trim(Js, lines[0])] + TrimEach(lines[1..])
  }

  /** lines.filter(line => !line.startsWith(">")): the lines kept are exactly
      those that are not FASTA headers. */
  function DropHeaders(lines: seq<string>): (r: seq<string>)
    ensures |r| <= |lines|
    ensures forall x :: x in r <==> x in lines && !StartsWith(x, ">")
  {
    if lines == [] then []
    else if StartsWith(lines[0], ">") then DropHeaders(lines[1..])
    else [lines[0]] + DropHeaders(lines[1..])
  }

  /** One line is kept exactly when it is not a header. */
  lemma DropHeadersOne(x: string)
    ensures DropHeaders([x]) == if StartsWith(x, ">") then [] else [x]
  {
    assert [x][1..] == [];
  }

  /** Filtering distributes over concatenation: the kept lines stay in
      their order, each as often as it occurs. */
  lemma {:induction false} DropHeadersConcat(a: seq<string>, b: seq<string>)
    ensures DropHeaders(a + b) == DropHeaders(a) + DropHeaders(b)
  {
    if a == [] {
      assert a + b == b;
    } else {
      assert (a + b)[0] == a[0] && (a + b)[1..] == a[1..] + b;
      DropHeadersConcat(a[1..], b);
    }
  }

  /** content.split("\n").map(line => line.trim()) */
  function TrimmedLines(content: string): (lines: seq<string>)
    ensures |lines| >= 1
  {
    TrimEach(SplitOn(content, '\n'))
  }

  /** The FASTA reading of a file: the trimmed lines that are not headers,
      concatenated in order. */
  function FastaSequence(content: string): string {
    Concat(DropHeaders(TrimmedLines(content)))
  }

  /** The TXT reading of a file: its first line, trimmed. */
  function TxtSequence(content: string): string {
    TrimmedLines(content)[0]
  }

  /** A file of one line: its trimmed text, or nothing when it is a
      header. */
  lemma FastaSingleLine(line: string)
    requires '\n' !in line
    ensures FastaSequence(line) == if StartsWith(Trim(Js, line), ">") then [] else Trim(Js, line)
  {
    var t := Trim(Js, line);
    SplitNoSeparator(line, '\n');
    assert TrimmedLines(line) == [t];
    DropHeadersOne(t);
    if !StartsWith(t, ">") {
      ConcatOne(t);
    }
  }

  lemma ConcatOne(x: string)
    ensures Concat([x]) == x
  {
    assert [x][1..] == [];
    Assoc(x, [], []);
  }

  /** The TXT reading ignores everything after the first line break. */
  lemma TxtFirstLine(line: string, rest: string)
    requires '\n' !in line
    ensures TxtSequence(line + ['\n'] + rest) == Trim(Js, line)
    ensures TxtSequence(line) == Trim(Js, line)
  {
    SplitAfterSeparator(line, rest, '\n');
    SplitNoSeparator(line, '\n');
  }

  /** Splitting a line off the front of a file: its trimmed form comes
      first. */
  lemma TrimmedLinesCons(line: string, rest: string)
    requires '\n' !in line
    ensures TrimmedLines(line + ['\n'] + rest) == [Trim(Js, line)] + TrimmedLines(rest)
  {
    SplitAfterSeparator(line, rest, '\n');
    var parts := [line] + SplitOn(rest, '\n');
    assert parts[1..] == SplitOn(rest, '\n');
  }

  /** A header line contributes nothing to the FASTA reading. */
  lemma FastaHeaderSkipped(header: string, rest: string)
    requires '\n' !in header && StartsWith(Trim(Js, header), ">")
    ensures FastaSequence(header + ['\n'] + rest) == FastaSequence(rest)
  {
    TrimmedLinesCons(header, rest);
    var lines := [Trim(Js, header)] + TrimmedLines(rest);
    assert lines[1..] == TrimmedLines(rest);
  }

  /** Any other line contributes its trimmed text, ahead of the rest. */
  lemma FastaBodyLine(line: string, rest: string)
    requires '\n' !in line && !StartsWith(Trim(Js, line), ">")
    ensures FastaSequence(line + ['\n'] + rest) == Trim(Js, line) + FastaSequence(rest)
  {
    TrimmedLinesCons(line, rest);
    var lines := [Trim(Js, line)] + TrimmedLines(rest);
    assert lines[1..] == TrimmedLines(rest);
    var kept := [Trim(Js, line)] + DropHeaders(TrimmedLines(rest));
    assert kept[1..] == DropHeaders(TrimmedLines(rest));
  }
}
