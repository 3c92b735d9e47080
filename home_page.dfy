/// The older single-sequence form (frontend/app/single/page.tsx, the
/// component HomePage): a wild-type sequence typed in, loaded from a file or
/// fetched from dbSNP, checked after removing white space and upper-casing.
/// The page's React state is the class Page; each handler is a method whose
/// final field values are those of the last setter call for that field.
module HomePage {
  import opened Text
  import opened Forms

  const MaxSequenceLength: nat := 100

  const InvalidCharacters: string := "Sequence contains invalid characters. Only A, U, G, C are allowed."
  const TooLong: string := "Sequence exceeds the maximum length of 100 characters."
  const InvalidFormat: string := "Invalid file format. Please upload a .txt or .fasta file."
  const ReadFailure: string := "Failed to read the file"
  const NoDbSnpId: string := "Please provide a valid dbSNP ID."
  const FetchFailure: string := "Failed to fetch sequence for dbSNP ID."

  /** sequence.replace(/\s+/g, "").toUpperCase() */
  function Clean(sequence: string): string {
    Upper(RemoveSpaces(Js, sequence))
  }

  /** validateSequence: the message, or None when the sequence passes. The
      character check comes before the length check. */
  function ValidateSequence(sequence: string): (r: Option<string>)
    ensures r.Some? ==> r.value == InvalidCharacters || r.value == TooLong
  {
    var clean := Clean(sequence);
    if !AllBases(clean) then Some(InvalidCharacters)
    else if |clean| > MaxSequenceLength then Some(TooLong)
    else None
  }

  /** Every character that is not white space is a base, in either case. */
  predicate BasesOrSpace(s: string) {
    forall i :: 0 <= i < |s| ==> IsSpace(Js, s[i]) || IsBase(s[i])
  }

  lemma UpperBase(c: char)
    ensures IsBase(UpperChar(c)) <==> IsBase(c)
  {
  }

  lemma CleanBases(s: string)
    ensures AllBases(Clean(s)) <==> BasesOrSpace(s)
  {
    var r := RemoveSpaces(Js, s);
    RemoveSpacesChars(Js, s);
    if AllBases(Clean(s)) {
      forall i | 0 <= i < |s| && !IsSpace(Js, s[i])
        ensures IsBase(s[i])
      {
        assert s[i] in r;
        var j :| 0 <= j < |r| && r[j] == s[i];
        UpperBase(r[j]);
      }
    }
    if BasesOrSpace(s) {
      forall j | 0 <= j < |r|
        ensures IsBase(Clean(s)[j])
      {
        assert r[j] in r;
        var i :| 0 <= i < |s| && s[i] == r[j];
        UpperBase(r[j]);
      }
    }
  }

  /** The check in terms of the characters typed: lower case, white space
      anywhere and T together with U all pass; only other characters, or
      more than 100 characters besides white space, are refused, and a bad
      character is reported whatever the length. */
  lemma ValidateChars(s: string)
    ensures ValidateSequence(s) == Some(InvalidCharacters) <==> !BasesOrSpace(s)
    ensures ValidateSequence(s) == Some(TooLong) <==>
      BasesOrSpace(s) && |RemoveSpaces(Js, s)| > MaxSequenceLength
    ensures ValidateSequence(s).None? <==>
      BasesOrSpace(s) && |RemoveSpaces(Js, s)| <= MaxSequenceLength
  {
    CleanBases(s);
  }

  /** A blank sequence, the empty one included, passes. */
  lemma BlankPasses(s: string)
    requires AllSpace(Js, s)
    ensures ValidateSequence(s).None?
  {
    RemoveSpacesChars(Js, s);
    assert BasesOrSpace(s);
    ValidateChars(s);
  }

  /** A '>' anywhere fails the character check. */
  lemma HeaderMarkRejected(s: string)
    requires '>' in s
    ensures ValidateSequence(s) == Some(InvalidCharacters)
  {
    var i :| 0 <= i < |s| && s[i] == '>';
    assert !IsSpace(Js, s[i]) && !IsBase(s[i]);
    ValidateChars(s);
  }

  /** The onload reading of a file: the whole content trimmed, split into
      lines, lines starting with '>' dropped, the rest joined and all white
      space removed. The lines are not trimmed before the header test. */
  function ProcessContent(content: string): (sequence: string)
    ensures NoSpace(Js, sequence)
  {
    RemoveSpaces(Js, Concat(DropHeaders(SplitOn(Trim(Js, content), '\n'))))
  }

  /** The lines of a file whose first and last characters are not white
      space. */
  predicate TrimmedFile(lines: seq<string>) {
    && |lines| >= 1
    && (forall i :: 0 <= i < |lines| ==> '\n' !in lines[i])
    && var c := JoinWith(lines, '\n'); c == [] || (!IsSpace(Js, c[0]) && !IsSpace(Js, c[|c| - 1]))
  }

  /** For such a file the reading works on its lines as they are. */
  lemma ProcessLines(lines: seq<string>)
    requires TrimmedFile(lines)
    ensures ProcessContent(JoinWith(lines, '\n')) == RemoveSpaces(Js, Concat(DropHeaders(lines)))
  {
    TrimKeeps(Js, JoinWith(lines, '\n'));
    SplitJoin(lines, '\n');
  }

  /** A header line indented by white space is not recognised as a header:
      its '>' reaches the sequence, and the file is refused. */
  lemma IndentedHeaderRejected(lines: seq<string>, i: nat)
    requires TrimmedFile(lines)
    requires i < |lines| && '>' in lines[i] && !StartsWith(lines[i], ">")
    ensures ValidateSequence(ProcessContent(JoinWith(lines, '\n'))) == Some(InvalidCharacters)
  {
    var sequence := ProcessContent(JoinWith(lines, '\n'));
    ProcessLines(lines);
    MarkSurvives(DropHeaders(lines), lines[i]);
    HeaderMarkRejected(sequence);
  }

  lemma MarkSurvives(parts: seq<string>, x: string)
    requires x in parts && '>' in x
    ensures '>' in RemoveSpaces(Js, Concat(parts))
  {
    var j :| 0 <= j < |parts| && parts[j] == x;
    ConcatHas(parts, j, '>');
    RemoveSpacesChars(Js, Concat(parts));
  }

  /** What the wild-type field may hold after typing or a file load: a
      sequence that passes the check. */
  predicate Passes(s: string) {
    ValidateSequence(s).None?
  }

  /** The page's React state, as one value. */
  datatype State = State(wildSequence: string, error: string, dbSnpId: string)

  const Initial: State := State([], [], [])

  /** handleInputChange: the message is cleared, then the raw value is
      stored if it passes, or the check's message shown if not. */
  function InputChange(st: State, value: string): (r: State)
    ensures r.dbSnpId == st.dbSnpId
    ensures Passes(value) ==> r.wildSequence == value && r.error == []
    ensures !Passes(value) ==> r.wildSequence == st.wildSequence && r.error == ValidateSequence(value).value
    ensures Passes(st.wildSequence) ==> Passes(r.wildSequence)
  {
    match ValidateSequence(value)
    case Some(m) => st.(error := m)
    case None => st.(wildSequence := value, error := [])
  }

  /** The reader's onload: the processed sequence is stored if it passes,
      or the message shown; the message was already cleared when the file
      was chosen, and a success leaves it alone. */
  function FileLoad(st: State, content: string): (r: State)
    ensures r.dbSnpId == st.dbSnpId
    ensures Passes(ProcessContent(content)) ==> r == st.(wildSequence := ProcessContent(content))
    ensures !Passes(ProcessContent(content)) ==>
      r == st.(error := ValidateSequence(ProcessContent(content)).value) && r.error != []
    ensures Passes(st.wildSequence) ==> Passes(r.wildSequence)
  {
    var sequence := ProcessContent(content);
    match ValidateSequence(sequence)
    case Some(m) => st.(error := m)
    case None => st.(wildSequence := sequence)
  }

  /** A sequence loaded from a file would have been taken as typed, too. */
  lemma LoadedCouldBeTyped(st: State, content: string)
    requires FileLoad(st, content).wildSequence != st.wildSequence
    ensures InputChange(st, FileLoad(st, content).wildSequence).wildSequence == FileLoad(st, content).wildSequence
  {
  }

  /** handleDbSnpSearch: an empty id is refused without a request;
      otherwise the fetched sequence replaces the wild type unchecked, or
      the failure is shown. */
  function DbSnpSearch(st: State, outcome: FetchOutcome): (r: State)
    ensures r.dbSnpId == st.dbSnpId
    ensures st.dbSnpId == [] ==> r == st.(error := NoDbSnpId)
    ensures st.dbSnpId != [] && outcome.Fetched? ==> r == st.(wildSequence := outcome.sequence)
    ensures st.dbSnpId != [] && !outcome.Fetched? ==>
      r == st.(error := if outcome.NotOk? then FetchFailure else outcome.message)
  {
    if st.dbSnpId == [] then st.(error := NoDbSnpId)
    else
      match outcome
      case Fetched(s) => st.(wildSequence := s)
      case NotOk => st.(error := FetchFailure)
      case Failed(m) => st.(error := m)
  }

  /** Unlike typing or a file, a dbSNP fetch can leave a wild type that
      fails the check. */
  lemma FetchBypassesCheck(st: State, s: string)
    requires st.dbSnpId != [] && !Passes(s)
    ensures !Passes(DbSnpSearch(st, Fetched(s)).wildSequence)
  {
  }

  /** The page's React state. */
  class Page {
    var wildSequence: string
    var error: string
    var dbSnpId: string

    function Snapshot(): State
      reads this
    {
      State(wildSequence, error, dbSnpId)
    }

    constructor ()
      ensures Snapshot() == Initial
    {
      wildSequence, error, dbSnpId := [], [], [];
    }

    method HandleInputChange(value: string)
      modifies this
      ensures Snapshot() == InputChange(old(Snapshot()), value)
    {
      error := [];
      var validationError := ValidateSequence(value);
      if validationError.Some? {
        error := validationError.value;
      } else {
        wildSequence := value;
      }
    }

    /** The synchronous part of handleFileUpload: the message is cleared
        first, even when no file was chosen; a name with neither extension
        sets the message and nothing is read. */
    method FileChosen(name: Option<string>) returns (reading: bool)
      modifies this
      ensures reading <==> name.Some? && FileKindOf(name.value).Some?
      ensures Snapshot() == old(Snapshot()).(error := if name.Some? && !reading then InvalidFormat else [])
    {
      error := [];
      if name.None? {
        return false;
      }
      if !EndsWith(name.value, ".txt") && !EndsWith(name.value, ".fasta") {
        error := InvalidFormat;
        return false;
      }
      return true;
    }

    method FileLoaded(content: string)
      modifies this
      ensures Snapshot() == FileLoad(old(Snapshot()), content)
    {
      var sequence := ProcessContent(content);
      var validationError := ValidateSequence(sequence);
      if validationError.Some? {
        error := validationError.value;
      } else {
        wildSequence := sequence;
      }
    }

    /** The reader's onerror. */
    method FileReadFailed()
      modifies this
      ensures Snapshot() == old(Snapshot()).(error := ReadFailure)
    {
      error := ReadFailure;
    }

    /** The dbSNP id field's onChange. */
    method SetDbSnpId(value: string)
      modifies this
      ensures Snapshot() == old(Snapshot()).(dbSnpId := value)
    {
      dbSnpId := value;
    }

    method HandleDbSnpSearch(outcome: FetchOutcome) returns (requested: bool)
      modifies this
      ensures requested <==> old(dbSnpId) != []
      ensures Snapshot() == DbSnpSearch(old(Snapshot()), outcome)
    {
      if dbSnpId == [] {
        error := NoDbSnpId;
        return false;
      }
      requested := true;
      match outcome
      case Fetched(s) =>
        wildSequence := s;
      case NotOk =>
        error := FetchFailure;
      case Failed(m) =>
        error := m;
    }

    /** handleSubmit: no check at all; the message is cleared and the wild
        type is sent (and saved to localStorage) as it stands. The request's
        failure message, if any, is the parameter. */
    method HandleSubmit(failure: Option<string>) returns (sent: string)
      modifies this
      ensures sent == old(wildSequence)
      ensures Snapshot() == old(Snapshot()).(error := if failure.Some? then failure.value else [])
    {
      error := [];
      sent := wildSequence;
      if failure.Some? {
        error := failure.value;
      }
    }
  }
}
