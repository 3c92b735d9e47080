/// The pair analysis form (frontend/src/app/pair/page.tsx): a mutant and a
/// wild-type sequence, typed in or loaded from a file, or a wild type
/// fetched from dbSNP. The page's React state is the class Page; each handler
/// is a method whose final field values are those of the last setter call
/// for that field.
module PairPage {
  import opened Text
  import opened Forms
  import SinglePage

  const InvalidInput: string := "Invalid input: Only A, U, G, and C are allowed."
  const InvalidFasta: string := "Invalid FASTA sequence."
  const InvalidTxt: string := "Invalid TXT sequence."
  const OnlyFastaOrTxt: string := "Only .fasta or .txt files are allowed."
  const ReadFailure: string := "Failed to read the file."
  const NoDbSnpId: string := "Please provide a valid dbSNP ID"
  const FetchFailure: string := "Failed to fetch sequence for dbSNP ID"
  const NoSequences: string := "Please provide mutant and wild-type sequence."

  /** isValidSequence: /^[ACGUTacgut]+$/, with no upper-casing and no rule
      about T and U. */
  function IsValidSequence(sequence: string): (ok: bool)
    ensures ok <==> sequence != [] && forall i :: 0 <= i < |sequence| ==> IsBase(sequence[i])
  {
    sequence != [] && AllBases(sequence)
  }

  /** The single-sequence page accepts exactly what this page accepts, less
      the sequences holding both T and U. */
  lemma SingleIsPairWithoutTAndU(s: string)
    ensures SinglePage.SequenceError(s).None? <==>
      IsValidSequence(s) && !(SinglePage.HasBase(s, 'T', 't') && SinglePage.HasBase(s, 'U', 'u'))
  {
    SinglePage.SequenceErrorChars(s);
  }

  /** parseFileContent: the sequence the file holds, or the message of the
      error it throws; there is no length limit. */
  function ParseFileContent(content: string, kind: FileKind): (r: Result<string, string>)
    ensures var sequence := if kind == Fasta then FastaSequence(content) else TxtSequence(content);
      && (r.Ok? <==> IsValidSequence(sequence))
      && (r.Ok? ==> r.value == sequence)
      && (r.Err? ==> r.error == if kind == Fasta then InvalidFasta else InvalidTxt)
  {
    var sequence := if kind == Fasta then FastaSequence(content) else TxtSequence(content);
    if IsValidSequence(sequence) then Ok(sequence)
    else Err(if kind == Fasta then InvalidFasta else InvalidTxt)
  }

  /** Which setter a handler was given. */
  datatype Target = Mutant | Wild

  /** The page's React state, as one value. */
  datatype State = State(mutantSequence: string, wildSequence: string, dbSnpId: string, error: string, fetchDbSnp: bool)

  const Initial: State := State([], [], [], [], false)

  function Store(st: State, target: Target, s: string): (r: State)
    ensures r.(mutantSequence := st.mutantSequence, wildSequence := st.wildSequence) == st
    ensures target == Mutant ==> r.mutantSequence == s && r.wildSequence == st.wildSequence
    ensures target == Wild ==> r.wildSequence == s && r.mutantSequence == st.mutantSequence
  {
    if target == Mutant then st.(mutantSequence := s) else st.(wildSequence := s)
  }

  /** Both sequence fields are empty or hold an accepted sequence. */
  predicate SequencesAccepted(st: State) {
    (st.mutantSequence == [] || IsValidSequence(st.mutantSequence))
    && (st.wildSequence == [] || IsValidSequence(st.wildSequence))
  }

  /** handleInputChange, given the trimmed input: stored with the message
      cleared when it is empty or accepted, otherwise only the message
      changes. */
  function InputChange(st: State, target: Target, input: string): (r: State)
    ensures input == [] || IsValidSequence(input) ==> r == Store(st, target, input).(error := [])
    ensures !(input == [] || IsValidSequence(input)) ==> r == st.(error := InvalidInput)
    ensures SequencesAccepted(st) ==> SequencesAccepted(r)
  {
    if input == [] || IsValidSequence(input) then Store(st, target, input).(error := [])
    else st.(error := InvalidInput)
  }

  /** The reader's onload: the parsed sequence is stored and the message
      cleared, or the thrown message is shown. */
  function FileLoad(st: State, target: Target, content: string, kind: FileKind): (r: State)
    ensures ParseFileContent(content, kind).Ok? ==>
      r == Store(st, target, ParseFileContent(content, kind).value).(error := [])
    ensures ParseFileContent(content, kind).Err? ==> r == st.(error := ParseFileContent(content, kind).error)
    ensures SequencesAccepted(st) ==> SequencesAccepted(r)
  {
    match ParseFileContent(content, kind)
    case Ok(s) => Store(st, target, s).(error := [])
    case Err(m) => st.(error := m)
  }

  /** handleDbSnpSearch: an empty id is refused without a request;
      otherwise the fetched sequence becomes the wild type, unchecked. */
  function DbSnpSearch(st: State, outcome: FetchOutcome): (r: State)
    ensures st.dbSnpId == [] ==> r == st.(error := NoDbSnpId)
    ensures st.dbSnpId != [] && outcome.Fetched? ==>
      r == st.(wildSequence := outcome.sequence, fetchDbSnp := true)
    ensures st.dbSnpId != [] && !outcome.Fetched? ==>
      r == st.(error := if outcome.NotOk? then FetchFailure else outcome.message)
  {
    if st.dbSnpId == [] then st.(error := NoDbSnpId)
    else
      match outcome
      case Fetched(s) => st.(wildSequence := s, fetchDbSnp := true)
      case NotOk => st.(error := FetchFailure)
      case Failed(m) => st.(error := m)
  }

  /** The guard of handleSubmit: one sequence, or a dbSNP fetch, is
      enough. */
  predicate SubmitAllowed(st: State) {
    st.mutantSequence != [] || st.wildSequence != [] || st.fetchDbSnp
  }

  function Submit(st: State): (r: State)
    ensures r.error == [] <==> SubmitAllowed(st)
    ensures !SubmitAllowed(st) ==> r.error == NoSequences
    ensures r.(error := st.error) == st
  {
    if !(st.mutantSequence != [] || st.wildSequence != [] || st.fetchDbSnp) then st.(error := NoSequences)
    else st.(error := [])
  }

  /** The refusal needs all three missing: a mutant alone is submitted even
      without a wild type. */
  lemma SubmitNeedsOnlyOne(st: State, target: Target, input: string)
    requires input != [] && IsValidSequence(input)
    ensures Submit(InputChange(st, target, input)).error == []
  {
  }

  /** useEffect on mount: localStorage.getItem(...) || "" for each field. */
  function Restore(st: State, storedMutant: Option<string>, storedWild: Option<string>): (r: State)
    ensures r.mutantSequence == (if storedMutant.Some? then storedMutant.value else [])
    ensures r.wildSequence == (if storedWild.Some? then storedWild.value else [])
    ensures r.(mutantSequence := st.mutantSequence, wildSequence := st.wildSequence) == st
  {
    st.(mutantSequence := if storedMutant.Some? then storedMutant.value else [],
        wildSequence := if storedWild.Some? then storedWild.value else [])
  }

  /** The page's React state. */
  class Page {
    var mutantSequence: string
    var wildSequence: string
    var dbSnpId: string
    var error: string
    var fetchDbSnp: bool

    function Snapshot(): State
      reads this
    {
      State(mutantSequence, wildSequence, dbSnpId, error, fetchDbSnp)
    }

    constructor ()
      ensures Snapshot() == Initial
    {
      mutantSequence, wildSequence, dbSnpId, error, fetchDbSnp := [], [], [], [], false;
    }

    method SetSequence(target: Target, s: string)
      modifies this
      ensures Snapshot() == Store(old(Snapshot()), target, s)
    {
      if target == Mutant {
        mutantSequence := s;
      } else {
        wildSequence := s;
      }
    }

    /** The effect run on mount. */
    method RestoreFromStorage(storedMutant: Option<string>, storedWild: Option<string>)
      modifies this
      ensures Snapshot() == Restore(old(Snapshot()), storedMutant, storedWild)
    {
      mutantSequence := if storedMutant.Some? then storedMutant.value else [];
      wildSequence := if storedWild.Some? then storedWild.value else [];
    }

    method HandleInputChange(target: Target, value: string)
      modifies this
      ensures Snapshot() == InputChange(old(Snapshot()), target, Trim(Js, value))
    {
      var input := Trim(Js, value);
      if input == [] || IsValidSequence(input) {
        SetSequence(target, input);
        error := [];
      } else {
        error := InvalidInput;
      }
    }

    /** The file-type choice in handleFileUpload; no file chosen changes
      nothing, and an unknown extension only sets the message. */
    method FileChosen(name: Option<string>) returns (kind: Option<FileKind>)
      modifies this
      ensures kind == (if name.Some? then FileKindOf(name.value) else None)
      ensures Snapshot() == if name.Some? && kind.None? then old(Snapshot()).(error := OnlyFastaOrTxt) else old(Snapshot())
    {
      if name.None? {
        return None;
      }
      kind := FileKindOf(name.value);
      if kind.None? {
        error := OnlyFastaOrTxt;
      }
    }

    method FileLoaded(target: Target, content: string, kind: FileKind)
      modifies this
      ensures Snapshot() == FileLoad(old(Snapshot()), target, content, kind)
    {
      match ParseFileContent(content, kind)
      case Ok(s) =>
        SetSequence(target, s);
        error := [];
      case Err(m) =>
        error := m;
    }

    /** The reader's onerror. */
    method FileReadFailed()
      modifies this
      ensures Snapshot() == old(Snapshot()).(error := ReadFailure)
    {
      error := ReadFailure;
    }

    /** The dbSNP id field's onChange. */
    method SetDbSnpId(value: string)
      modifies this
      ensures Snapshot() == old(Snapshot()).(dbSnpId := value)
    {
      dbSnpId := value;
    }

    method HandleDbSnpSearch(outcome: FetchOutcome) returns (requested: bool)
      modifies this
      ensures requested <==> old(dbSnpId) != []
      ensures Snapshot() == DbSnpSearch(old(Snapshot()), outcome)
    {
      if dbSnpId == [] {
        error := NoDbSnpId;
        return false;
      }
      requested := true;
      match outcome
      case Fetched(s) =>
        wildSequence := s;
        fetchDbSnp := true;
      case NotOk =>
        error := FetchFailure;
      case Failed(m) =>
        error := m;
    }

    method HandleSubmit() returns (sent: bool)
      modifies this
      ensures sent <==> SubmitAllowed(old(Snapshot()))
      ensures Snapshot() == Submit(old(Snapshot()))
    {
      error := [];
      if !(mutantSequence != [] || wildSequence != [] || fetchDbSnp) {
        error := NoSequences;
        return false;
      }
      return true;
    }
  }
}
