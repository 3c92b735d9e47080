/// The single-sequence analysis form (frontend/src/app/single/page.tsx): the
/// sequence check, the reading of an uploaded file, and the state the
/// handlers leave behind. The page's React state is the class Page; each
/// handler is a method whose final field values are those of the last
/// setter call for that field.
module SinglePage {
  import opened Text
  import opened Forms

  const MaxSequenceLength: nat := 100

  const BothTAndU: string := "Sequence cannot contain both T and U."
  const InvalidCharacters: string := "Invalid input: Only A, U, G, C, and T are allowed."
  const TooLong: string := "Sequence is too long. Maximum length is 100."
  const InvalidFasta: string := "Invalid FASTA sequence."
  const InvalidTxt: string := "Invalid TXT sequence."
  const OnlyFastaOrTxt: string := "Only .fasta or .txt files are allowed."
  const ReadFailure: string := "Failed to read the file."
  const NoDbSnpId: string := "Please provide a valid dbSNP ID."
  const FetchFailure: string := "Failed to fetch sequence for dbSNP ID."
  const NoWildType: string := "Please provide a wild-type sequence."

  /** /^[ACGUT]+$/ */
  predicate MatchesAlphabet(u: string) {
    u != [] && forall i :: 0 <= i < |u| ==> u[i] in "ACGUT"
  }

  /** isValidSequence: the message it sets when it rejects the sequence, or
      None when it accepts it. T together with U is reported first. */
  function SequenceError(sequence: string): (r: Option<string>)
    ensures r.Some? ==> r.value == BothTAndU || r.value == InvalidCharacters
  {
    var upper := Upper(sequence);
    if 'T' in upper && 'U' in upper then Some(BothTAndU)
    else if !MatchesAlphabet(upper) then Some(InvalidCharacters)
    else None
  }

  predicate HasBase(s: string, upper: char, lower: char) {
    exists i :: 0 <= i < |s| && (s[i] == upper || s[i] == lower)
  }

  lemma UpperCharIn(c: char)
    ensures UpperChar(c) in "ACGUT" <==> c in "ACGUTacgut"
    ensures UpperChar(c) == 'T' <==> c == 'T' || c == 't'
    ensures UpperChar(c) == 'U' <==> c == 'U' || c == 'u'
  {
  }

  lemma UpperHas(s: string, upper: char, lower: char)
    requires upper == 'T' || upper == 'U'
    requires lower as int == upper as int + 32
    ensures upper in Upper(s) <==> HasBase(s, upper, lower)
  {
    var u := Upper(s);
    if upper in u {
      var i :| 0 <= i < |u| && u[i] == upper;
      UpperCharIn(s[i]);
    }
    if HasBase(s, upper, lower) {
      var i :| 0 <= i < |s| && (s[i] == upper || s[i] == lower);
      UpperCharIn(s[i]);
      assert u[i] == upper;
    }
  }

  /** The check in terms of the characters typed: a sequence is accepted
      exactly when it is not empty, every character is one of A, C, G, U, T
      in either case, and T and U do not both occur; T together with U is
      what is reported whenever it happens. */
  lemma SequenceErrorChars(s: string)
    ensures SequenceError(s).None? <==>
      s != [] && (forall i :: 0 <= i < |s| ==> s[i] in "ACGUTacgut")
      && !(HasBase(s, 'T', 't') && HasBase(s, 'U', 'u'))
    ensures SequenceError(s) == Some(BothTAndU) <==> HasBase(s, 'T', 't') && HasBase(s, 'U', 'u')
  {
    UpperHas(s, 'T', 't');
    UpperHas(s, 'U', 'u');
    var u := Upper(s);
    assert MatchesAlphabet(u) <==> s != [] && forall i :: 0 <= i < |s| ==> s[i] in "ACGUTacgut" by {
      forall i | 0 <= i < |s| {
        UpperCharIn(s[i]);
      }
    }
  }

  /** parseFileContent: the sequence the file holds, or the message of the
      error it throws. The sequence is returned as read, not upper-cased. */
  function ParseFileContent(content: string, kind: FileKind): (r: Result<string, string>)
    ensures var sequence := if kind == Fasta then FastaSequence(content) else TxtSequence(content);
      && (r.Ok? <==> SequenceError(sequence).None? && |sequence| <= MaxSequenceLength)
      && (r.Ok? ==> r.value == sequence)
      && (SequenceError(sequence).Some? ==> r == Err(if kind == Fasta then InvalidFasta else InvalidTxt))
      && (SequenceError(sequence).None? && |sequence| > MaxSequenceLength ==> r == Err(TooLong))
  {
    var sequence := if kind == Fasta then FastaSequence(content) else TxtSequence(content);
    if SequenceError(sequence).Some? then Err(if kind == Fasta then InvalidFasta else InvalidTxt)
    else if |sequence| > MaxSequenceLength then Err(TooLong)
    else Ok(sequence)
  }

  /** What the wild-type field may hold once it was typed in or loaded from
      a file: nothing, or an accepted sequence within the length limit. */
  predicate Acceptable(s: string) {
    s == [] || (SequenceError(s).None? && |s| <= MaxSequenceLength)
  }

  /** The page's React state, as one value. */
  datatype State = State(wildSequence: string, dbSnpId: string, error: string, fetchDbSnp: bool)

  const Initial: State := State([], [], [], false)

  /** handleInputChange, given the trimmed input: it is stored when it is
      empty, or accepted and within the limit; otherwise the field keeps its
      value and the message says why. An empty input leaves the message as
      it was. */
  function InputChange(st: State, input: string): (r: State)
    ensures r.dbSnpId == st.dbSnpId && r.fetchDbSnp == st.fetchDbSnp
    ensures Acceptable(st.wildSequence) ==> Acceptable(r.wildSequence)
  {
    if input == [] then st.(wildSequence := input)
    else
      match SequenceError(input)
      case Some(m) => st.(error := m)
      case None =>
        if |input| > MaxSequenceLength then st.(error := TooLong)
        else st.(wildSequence := input, error := [])
  }

  /** The input is stored exactly when it is acceptable, and a rejection
      reports the first check that failed. */
  lemma InputChangeStores(st: State, input: string)
    ensures var r := InputChange(st, input);
      && (Acceptable(input) ==> r.wildSequence == input)
      && (!Acceptable(input) ==> r.wildSequence == st.wildSequence)
      && (input != [] && SequenceError(input).Some? ==> r.error == SequenceError(input).value)
      && (input != [] && SequenceError(input).None? && |input| > MaxSequenceLength ==> r.error == TooLong)
      && (input != [] && Acceptable(input) ==> r.error == [])
      && (input == [] ==> r.error == st.error)
  {
  }

  /** The reader's onload: the parsed sequence is stored and the message
      cleared, or the thrown message is shown. The message isValidSequence
      sets while parsing is always overwritten by one of these. */
  function FileLoad(st: State, content: string, kind: FileKind): (r: State)
    ensures r.dbSnpId == st.dbSnpId && r.fetchDbSnp == st.fetchDbSnp
    ensures Acceptable(st.wildSequence) ==> Acceptable(r.wildSequence)
    ensures r.error == [] <==> ParseFileContent(content, kind).Ok?
    ensures ParseFileContent(content, kind).Ok? ==>
      r == st.(wildSequence := ParseFileContent(content, kind).value, error := [])
    ensures ParseFileContent(content, kind).Err? ==> r == st.(error := ParseFileContent(content, kind).error)
  {
    match ParseFileContent(content, kind)
    case Ok(s) => st.(wildSequence := s, error := [])
    case Err(m) => st.(error := m)
  }

  /** handleDbSnpSearch: an empty id is refused without a request;
      otherwise the fetched sequence replaces the wild type unchecked and
      marks it as fetched, or the failure is shown. */
  function DbSnpSearch(st: State, outcome: FetchOutcome): (r: State)
    ensures r.dbSnpId == st.dbSnpId
    ensures st.dbSnpId == [] ==> r == st.(error := NoDbSnpId)
    ensures st.fetchDbSnp ==> r.fetchDbSnp
    ensures st.dbSnpId != [] && outcome.Fetched? ==>
      r == st.(wildSequence := outcome.sequence, fetchDbSnp := true)
    ensures st.dbSnpId != [] && !outcome.Fetched? ==>
      r == st.(error := if outcome.NotOk? then FetchFailure else outcome.message)
  {
    if st.dbSnpId == [] then st.(error := NoDbSnpId)
    else
      match outcome
      case Fetched(s) => st.(wildSequence := s, fetchDbSnp := true)
      case NotOk => st.(error := FetchFailure)
      case Failed(m) => st.(error := m)
  }

  /** The guard of handleSubmit: the analysis is requested only with a wild
      type that was not fetched from dbSNP. */
  predicate SubmitAllowed(st: State) {
    st.wildSequence != [] && !st.fetchDbSnp
  }

  function Submit(st: State): (r: State)
    ensures r.error == [] <==> SubmitAllowed(st)
    ensures !SubmitAllowed(st) ==> r.error == NoWildType
    ensures r.(error := st.error) == st
  {
    if st.wildSequence == [] || st.fetchDbSnp then st.(error := NoWildType) else st.(error := [])
  }

  /** Once a dbSNP search has succeeded nothing on the page clears
      fetchDbSnp, so a fetched sequence can never be submitted: every later
      submission is refused with NoWildType. */
  lemma FetchedNeverSubmitted(st: State, s: string)
    requires st.dbSnpId != []
    ensures var r := DbSnpSearch(st, Fetched(s));
      r.wildSequence == s && r.fetchDbSnp && Submit(r).error == NoWildType
  {
  }

  /** The page's React state. */
  class Page {
    var wildSequence: string
    var dbSnpId: string
    var error: string
    var fetchDbSnp: bool

    function Snapshot(): State
      reads this
    {
      State(wildSequence, dbSnpId, error, fetchDbSnp)
    }

    constructor ()
      ensures Snapshot() == Initial
    {
      wildSequence, dbSnpId, error, fetchDbSnp := [], [], [], false;
    }

    /** isValidSequence, which also sets the error message. */
    method IsValidSequence(sequence: string) returns (ok: bool)
      modifies this
      ensures ok <==> SequenceError(sequence).None?
      ensures Snapshot() == old(Snapshot()).(error := if ok then [] else SequenceError(sequence).value)
    {
      var e := SequenceError(sequence);
      if e.Some? {
        error := e.value;
        return false;
      }
      error := [];
      return true;
    }

    method HandleInputChange(value: string)
      modifies this
      ensures Snapshot() == InputChange(old(Snapshot()), Trim(Js, value))
    {
      ghost var st := Snapshot();
      var input := Trim(Js, value);
      var ok := input == [];
      if !ok {
        ok := IsValidSequence(input);
      }
      if ok {
        if |input| > MaxSequenceLength {
          error := TooLong;
        } else {
          wildSequence := input;
        }
      }
      assert Snapshot() == InputChange(st, input);
    }

    /** The file-type choice in handleFileUpload; no file chosen changes
      nothing, and an unknown extension only sets the message. */
    method FileChosen(name: Option<string>) returns (kind: Option<FileKind>)
      modifies this
      ensures kind == (if name.Some? then FileKindOf(name.value) else None)
      ensures Snapshot() == if name.Some? && kind.None? then old(Snapshot()).(error := OnlyFastaOrTxt) else old(Snapshot())
    {
      if name.None? {
        return None;
      }
      kind := FileKindOf(name.value);
      if kind.None? {
        error := OnlyFastaOrTxt;
      }
    }

    method FileLoaded(content: string, kind: FileKind)
      modifies this
      ensures Snapshot() == FileLoad(old(Snapshot()), content, kind)
    {
      match ParseFileContent(content, kind)
      case Ok(s) =>
        wildSequence := s;
        error := [];
      case Err(m) =>
        error := m;
    }

    /** The reader's onerror. */
    method FileReadFailed()
      modifies this
      ensures Snapshot() == old(Snapshot()).(error := ReadFailure)
    {
      error := ReadFailure;
    }

    /** The dbSNP id field's onChange. */
    method SetDbSnpId(value: string)
      modifies this
      ensures Snapshot() == old(Snapshot()).(dbSnpId := value)
    {
      dbSnpId := value;
    }

    method HandleDbSnpSearch(outcome: FetchOutcome) returns (requested: bool)
      modifies this
      ensures requested <==> old(dbSnpId) != []
      ensures Snapshot() == DbSnpSearch(old(Snapshot()), outcome)
    {
      if dbSnpId == [] {
        error := NoDbSnpId;
        return false;
      }
      requested := true;
      match outcome
      case Fetched(s) =>
        wildSequence := s;
        fetchDbSnp := true;
      case NotOk =>
        error := FetchFailure;
      case Failed(m) =>
        error := m;
    }

    method HandleSubmit() returns (sent: bool)
      modifies this
      ensures sent <==> SubmitAllowed(old(Snapshot()))
      ensures Snapshot() == Submit(old(Snapshot()))
    {
      error := [];
      if wildSequence == [] || fetchDbSnp {
        error := NoWildType;
        return false;
      }
      return true;
    }
  }
}
