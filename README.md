# snp-app core, modelled in Dafny

snp-app analyses how single-nucleotide variants change the secondary structure of an RNA sequence. A Flask backend enumerates every variant of a wild-type sequence and feeds each one to the ViennaRNA tools. It then reads the tools' text output back and serves dbSNP lookups. Three Next.js pages collect the sequences.

This project models the deterministic string logic of that system:

- `Mutations` (backend/pipeline/script.py) covers `generate_mutations` and two token checks:
  - `generate_mutations`: its substitutions, deletions and insertions, their keys, order and count.
  - the `RNAdistance(f)` token pick;
  - the numeric-token test.
- `Backend` (backend/app.py) covers:
  - `extract_dot_bracket_and_energy`: `str.splitlines`, `strip`, and the backtracking `re.match` of a dot-bracket structure and an energy;
  - `parse_rnadistance_result_safe`: `re.findall` and the dictionary it fills in place, as a method with a loop;
  - the allele, reference and mutant tail of `get_dbSNP`: the copy into a list and the assignment at index 50, as a method over an array;
  - the server's `total_mutations` progress denominator.
- `Forms` holds what the pages share:
  - the file-type choice;
  - the FASTA and TXT readings of a file;
  - the outcome of the dbSNP request.
- `SinglePage`, `PairPage` and `HomePage` model the three pages: frontend/src/app/single/page.tsx, frontend/src/app/pair/page.tsx and frontend/app/single/page.tsx.
  - Each page's validators and file parsers are functions.
  - Each page's React state is a `State` value, and each handler is a transition function on it, with lemmas.
  - A class `Page` holds the state fields. Each handler is a method whose `ensures` ties the new fields to that transition.
  - React batches a handler's setter calls, so a field's final value is the one its last setter call gave.
- `Text` holds the string primitives these rely on:
  - JavaScript `trim`, `split` and `join`;
  - Python `strip` and `split()`;
  - the `\s` classes of both languages, with Python's `str.isspace` set and JavaScript's WhiteSpace and LineTerminator set;
  - ASCII upper-casing.

Numbers parsed from tool output are kept as the matched decimal text, not as floats.

## Model

| member | source | states |
|---|---|---|
| Mutations.SubstitutionsAtMembers | backend/pipeline/script.py:18-22 | the inner loop at index i yields exactly the substitutions at position i+1 with a nucleotide from the current one on, skipping the original base |
| Mutations.SubstitutionsAtRanked | backend/pipeline/script.py:18-22 | those variants come in A, C, G, U order: 3 of them when s[i] is a nucleotide, 4 otherwise |
| Mutations.SubstitutionsFromFacts | backend/pipeline/script.py:17-22 | the substitution loops from index i yield exactly the substitutions at later positions, strictly ordered by (position, nucleotide), 3 per nucleotide position and 4 per other character |
| Mutations.SubstitutionsExact | backend/pipeline/script.py:17-22 | the substitution section is exactly the set of single-nucleotide substitutions, each once, in (position, A, C, G, U) order, with count 3n + number of non-ACGU characters |
| Mutations.DeletionsFromFacts | backend/pipeline/script.py:25-28 | from index i on there is one deletion per position, in order |
| Mutations.DeletionsExact | backend/pipeline/script.py:25-28 | exactly n deletions; the k-th has key `{s[k]}_{k+1}_-`, length n-1, and is s with index k removed |
| Mutations.InsertionsAtFacts | backend/pipeline/script.py:32-35 | the inner insertion loop yields four variants, one per nucleotide in order |
| Mutations.InsertionsFromLength | backend/pipeline/script.py:31-35 | 4 insertions per gap from gap i on |
| Mutations.InsertionsExact | backend/pipeline/script.py:31-35 | exactly 4(n+1) insertions; the k-th puts Nucleotides[k mod 4] at index k div 4, with length n+1, the characters around it unchanged and key `-_{k div 4 + 1}_{nt}` |
| Mutations.InsertIsInsertion | backend/pipeline/script.py:33-34 | one insertion variant has the insertion shape and key |
| Mutations.GenerateMutationsLayout | backend/pipeline/script.py:13-35 | the output is all substitutions, then all deletions, then all insertions, with total length (3n + foreign) + n + 4(n+1) |
| Mutations.KeyAt | backend/pipeline/script.py:17-35 | for any sequence without '-': the k-th variant of the substitution section is a single-nucleotide substitution whose key's original is not '-'; the k-th deletion has key `{s[k]}_{k+1}_-`; the k-th insertion has key `-_{k div 4 + 1}_{Nucleotides[k mod 4]}` |
| Mutations.KeysDistinct | backend/pipeline/script.py:17-35 | for any sequence without '-' (upper or lower case, T included), no two yielded keys are equal |
| Mutations.DecimalDigits | backend/pipeline/script.py:21 | the f-string rendering of a position is canonical decimal digits that read back to the number |
| Mutations.KeyTextRoundTrip | backend/pipeline/script.py:21 | a key's text `{orig}_{pos}_{nt}` parses back to the key, and only that text does (both directions) |
| Mutations.DistanceFieldIsSecondWord | backend/pipeline/script.py:90-97 | for RNAdistance output `f: <d>` with any surrounding white space, the field is the second token `<d>` |
| Mutations.DistanceFieldFewTokens | backend/pipeline/script.py:90-97 | fewer than two tokens give "Error" |
| Mutations.RemoveFirstDotAt | backend/pipeline/script.py:138 | `replace('.', '', 1)` deletes exactly the first '.', or nothing if there is none |
| Mutations.NumericTokenShape | backend/pipeline/script.py:138-139 | a value is numeric iff it is non-empty digits, or digits, one '.', digits with at least one digit; signs, exponents and a second '.' are not numeric |
| Backend.SplitLines | backend/app.py:630 | every line of `splitlines` is free of line boundaries; the result is empty iff the text is |
| Backend.SplitLinesFirst | backend/app.py:630 | a line followed by "\n" comes first, before the lines of the rest |
| Backend.SplitLinesJoin | backend/app.py:630 | lines joined with "\n" split back into the same lines when the last one is not empty |
| Backend.StructureRun | backend/app.py:636 | the greedy run of `[\.()\[\]]` characters at the start: all structure characters, ended by the end of the line or a non-structure character |
| Backend.StructurePrefix | backend/app.py:636 | every prefix of the structure run is made of structure characters |
| Backend.TailEnergyComplete | backend/app.py:636 | `\s*\(\s*(-?\d+\.\d+)\s*\)` matches any white space, '(', white space, energy text, white space, ')' and captures the energy text |
| Backend.TailEnergySound | backend/app.py:636 | whatever the tail matches is that shape, with an energy text as the capture |
| Backend.EnergyComplete | backend/app.py:636 | an energy text followed by the closing part is captured whole |
| Backend.EnergySound | backend/app.py:636 | what the energy part captures is an energy text followed by the closing part |
| Backend.MatchFrom | backend/app.py:636 | the backtracking of `[\.()\[\]]+` picks the longest structure length at which the tail matches, or none if none does |
| Backend.MatchFromFinds | backend/app.py:636 | when the tail matches at k and fails at every longer length, the match is at k |
| Backend.LineMatch | backend/app.py:634-641 | on a structure run followed by the parenthesised energy, the match ends the structure group at the end of that run |
| Backend.ExtractDotBracketAndEnergy | backend/app.py:628-643 | ValueError (TooFewLines) iff fewer than two lines; otherwise the stripped second line starts with a non-empty structure run, followed by a matching tail whose capture is the energy, at the longest such length; NoStructureMatch iff no length matches |
| Backend.ExtractFromSecondLine | backend/app.py:628-641 | any content whose second line is structure, white space, '(' energy ')', trailing text not ending in white space, then any white space, followed by the end of the content or a line break and more lines, gives back exactly that structure and energy |
| Text.TrimTrailing | backend/app.py:634 | `strip()` of a text whose ends are not white space, followed by white space, is that text |
| Backend.SplitLinesHead | backend/app.py:630 | a line free of breaks, then the end or a line break, is the first line of `splitlines` |
| Backend.ExtractSound | backend/app.py:634-641 | an accepted line is structure + white space + '(' + energy + ')' + rest, and the energy has a decimal point |
| Backend.NumberLengthShape | backend/app.py:613 | the greedy `-?\d+\.?\d*` match is a number text |
| Backend.NumberLengthLongest | backend/app.py:613 | no prefix longer than the greedy `-?\d+\.?\d*` match is a number text |
| Backend.LongestNumberPrefixUnique | backend/app.py:613 | a text has only one longest number prefix |
| Backend.MatchAt | backend/app.py:613 | the pattern matches at i iff a key letter and ':' are there; the capture is the longest number text that starts after the colon and the white space after it (empty when none starts there), and the match ends right after it |
| Backend.FindAll | backend/app.py:613-615 | every capture of findall has a key in f,h,w,c,F,H,W,C,P that stands in the text before a ':', and a value that is empty or a number text; nothing is captured iff no key and ':' stand in the text; the order and completeness of the captures are stated by FindAllInTextOrder |
| Backend.KeyColonPositions | backend/app.py:613-615 | every position listed holds a key letter followed by ':' at or after the start |
| Backend.KeyColonPositionsExact | backend/app.py:613-615 | every key-and-colon position from the start is listed, and the list is in increasing text order |
| Backend.MatchSpanHasNoKey | backend/app.py:613 | no key and ':' stand inside a match (its colon, white space and number characters are not key letters), so resuming after a match skips no key |
| Backend.FindAllSkip | backend/app.py:615 | where no key and ':' stand, findall moves on one character |
| Backend.FindAllInTextOrder | backend/app.py:615 | findall gives exactly one capture per key-and-colon position, in text order, and each is the match at that position |
| Backend.ParseLastOccurrenceWins | backend/app.py:613-626 | when a key stands in the text several times, the value stored for it is the one captured at its last occurrence |
| Backend.ParseLastOccurrence | backend/app.py:612-626 | on a text with no empty capture the parse succeeds and each key holds the value captured at its last occurrence |
| Backend.KeyWithNumber | backend/app.py:613 | for a key, ':', white space and a number text that the rest does not extend, the first capture is that key with that number |
| Backend.KeyWithNumberAlone | backend/app.py:613-626 | with no other key and ':' in the rest, that capture is the only one, none is empty, and the stored values are the defaults with the key set to the number |
| Backend.ParseKeyWithNumber | backend/app.py:612-626 | on such a text the parse succeeds with the number for the key and 0.0 for the eight others |
| Backend.ParseRnaDistanceResultSafe | backend/app.py:612-626 | the parse succeeds iff no capture is empty, and then it is the defaults updated by the captures in order; otherwise it fails at the first empty capture (`float('')`) |
| Backend.StoredLastWins | backend/app.py:617-626 | the result has exactly the nine keys; each holds its last captured value, or 0.0 if the key is absent |
| Backend.KeyWithoutNumber | backend/app.py:613-624 | a key and ':' with no number after them give an empty capture, so the parse fails: the `is not None` guard never fires |
| Backend.AllelesShape | backend/app.py:1141-1144 | the allele string is accepted iff it is `x/y` with one non-slash character on each side, giving (x, y) |
| Backend.BuildSnpPair | backend/app.py:1136-1169 | an id mismatch, bad alleles, a sequence too short for index 50, and a reference mismatch (with expected and found bases) each occur exactly when their condition holds; otherwise the wild type is the sequence and the mutant equals it except at index 50, which holds the second allele |
| Backend.MutationCount | backend/app.py:880 | generate_mutations yields the server's 3n + n + 4(n+1) items plus one per non-ACGU character, so over A, C, G, U the denominator is exact |
| Backend.NoForeign | backend/app.py:880 | a sequence over A, C, G, U has no extra substitutions |
| Text.RemoveSpaces | frontend/app/single/page.tsx:15 | `replace(/\s+/g, "")` leaves no white space and changes a string without white space not at all |
| Text.RemoveSpacesChars | frontend/app/single/page.tsx:15 | the characters left are exactly the non-white-space characters |
| Text.Trim | frontend/src/app/single/page.tsx:87 | `trim()` is the infix left after white space is dropped at both ends, and neither end of it is white space |
| Text.TrimDropsSpace | backend/app.py:634 | `strip()` splits the text into white space, the result, and white space |
| Text.SplitOn | frontend/src/app/single/page.tsx:33 | `split("\n")` gives at least one piece, and no piece contains the separator |
| Text.JoinSplit | frontend/src/app/single/page.tsx:33 | joining the pieces with the separator gives back the text |
| Text.SplitJoin | frontend/src/app/single/page.tsx:33 | splitting joined separator-free pieces gives back the pieces |
| Text.TokensOfTrim | backend/pipeline/script.py:90 | `strip().split()` gives the same tokens as `split()` |
| Text.Upper | frontend/src/app/single/page.tsx:17 | `toUpperCase()` keeps the length and maps each character |
| Forms.AllBases | frontend/src/app/pair/page.tsx:19 | the scan of `[ACGUTacgut]*` succeeds iff every character is a base |
| Forms.FileKindOf | frontend/src/app/single/page.tsx:57-61 | fasta iff the name ends in ".fasta", txt iff it ends in ".txt" (and not ".fasta"), none iff neither |
| Forms.FileKindOfExtension | frontend/src/app/pair/page.tsx:44-48 | any name followed by ".fasta" or ".txt" selects that parser |
| Forms.TrimEach | frontend/src/app/single/page.tsx:33 | every line trimmed, in place |
| Forms.DropHeaders | frontend/src/app/single/page.tsx:35 | the lines kept are exactly the lines not starting with '>' |
| Forms.DropHeadersOne | frontend/src/app/single/page.tsx:35 | one line is dropped iff it starts with '>', and is otherwise kept |
| Forms.DropHeadersConcat | frontend/src/app/single/page.tsx:35 | the filter of two line lists in a row is the two filters in a row, so it keeps the order of the lines |
| Forms.FastaSingleLine | frontend/src/app/single/page.tsx:32-36 | one line without a break reads as nothing if its trimmed form starts with '>', and as its trimmed form otherwise |
| Forms.TxtFirstLine | frontend/src/app/single/page.tsx:41 | the TXT reading is the first line trimmed, whatever follows it |
| Forms.TrimmedLinesCons | frontend/src/app/single/page.tsx:33 | splitting off the first line puts its trimmed form first |
| Forms.FastaHeaderSkipped | frontend/src/app/single/page.tsx:35-36 | a line whose trimmed form starts with '>' contributes nothing |
| Forms.FastaBodyLine | frontend/src/app/single/page.tsx:35-36 | any other line contributes its trimmed text ahead of the rest, in order |
| SinglePage.SequenceError | frontend/src/app/single/page.tsx:16-29 | a rejection carries one of the two messages |
| SinglePage.UpperHas | frontend/src/app/single/page.tsx:19 | the upper-cased sequence contains T (U) iff the input has T or t (U or u) |
| SinglePage.SequenceErrorChars | frontend/src/app/single/page.tsx:17-26 | accepted iff non-empty, every character in ACGUTacgut, and not both T/t and U/u; the T-and-U message is given exactly when both occur, before the alphabet check |
| SinglePage.ParseFileContent | frontend/src/app/single/page.tsx:32-49 | Ok iff the FASTA/TXT reading is valid and at most 100 long, returned unchanged; invalid gives the kind's message; valid but too long gives the length message |
| SinglePage.InputChange | frontend/src/app/single/page.tsx:83-95 | only the sequence and the message change; an acceptable stored sequence stays acceptable |
| SinglePage.InputChangeStores | frontend/src/app/single/page.tsx:87-94 | the trimmed input is stored iff it is empty, or valid and at most 100 long, and otherwise the stored sequence is kept; a rejection reports the first failed check (the validator's message, then the length message); a stored non-empty input clears the message; an empty input leaves the message as it was |
| SinglePage.FileLoad | frontend/src/app/single/page.tsx:69-77 | a file that parses replaces the wild type with the parsed sequence and clears the message; a failure sets only the message, to the parser's; the id and the fetch flag never change; an acceptable stored sequence stays acceptable |
| SinglePage.DbSnpSearch | frontend/src/app/single/page.tsx:97-114 | an empty id only sets "Please provide a valid dbSNP ID."; a fetch replaces the wild type unchecked and sets the fetch flag, nothing else; a failed response sets only the failure message, a thrown error only its own message; the fetch flag is never cleared |
| SinglePage.Submit | frontend/src/app/single/page.tsx:116-123 | the message is empty iff a wild type is present and was not fetched, and is otherwise "Please provide a wild-type sequence."; nothing else changes |
| SinglePage.FetchedNeverSubmitted | frontend/src/app/single/page.tsx:108-121 | after a successful fetch, submission is refused with "Please provide a wild-type sequence." |
| SinglePage.Page.IsValidSequence | frontend/src/app/single/page.tsx:16-29 | the method returns true iff SequenceError is None, and sets the message accordingly |
| SinglePage.Page.HandleInputChange | frontend/src/app/single/page.tsx:83-95 | the new state is InputChange of the old state and the trimmed value |
| SinglePage.Page.FileChosen | frontend/src/app/single/page.tsx:54-66 | no file changes nothing; a bad extension only sets "Only .fasta or .txt files are allowed." |
| SinglePage.Page.FileLoaded | frontend/src/app/single/page.tsx:69-77 | the new state is FileLoad of the old one |
| SinglePage.Page.FileReadFailed | frontend/src/app/single/page.tsx:79 | the message becomes "Failed to read the file." |
| SinglePage.Page.SetDbSnpId | frontend/src/app/single/page.tsx:183 | the dbSNP field stores the typed id unchecked and nothing else changes |
| SinglePage.Page.HandleDbSnpSearch | frontend/src/app/single/page.tsx:97-114 | a request is made iff the id is non-empty; the new state is DbSnpSearch of the old |
| SinglePage.Page.HandleSubmit | frontend/src/app/single/page.tsx:116-123 | sent iff SubmitAllowed; the new state is Submit of the old |
| PairPage.IsValidSequence | frontend/src/app/pair/page.tsx:19 | accepted iff non-empty and every character is in ACGUTacgut, with no upper-casing and no T/U rule |
| PairPage.SingleIsPairWithoutTAndU | frontend/src/app/pair/page.tsx:19 | the single page accepts exactly what the pair page accepts minus the sequences holding both T and U |
| PairPage.ParseFileContent | frontend/src/app/pair/page.tsx:21-35 | Ok iff the reading is valid (no length limit), returned unchanged; otherwise "Invalid FASTA sequence." or "Invalid TXT sequence." |
| PairPage.InputChange | frontend/src/app/pair/page.tsx:70-81 | the trimmed input is stored in the chosen field and the message cleared iff it is empty or valid; otherwise only the message becomes the input error; both fields stay empty-or-valid |
| PairPage.FileLoad | frontend/src/app/pair/page.tsx:56-64 | a parsed sequence goes to the chosen field with the message cleared; a failure shows the parser's message; both fields stay empty-or-valid |
| PairPage.DbSnpSearch | frontend/src/app/pair/page.tsx:83-99 | an empty id only sets "Please provide a valid dbSNP ID"; a fetch sets the wild type unchecked and the flag; a failure sets its message |
| PairPage.Submit | frontend/src/app/pair/page.tsx:101-108 | the message is empty iff a mutant, a wild type or a fetch is present; otherwise it is "Please provide mutant and wild-type sequence." |
| PairPage.SubmitNeedsOnlyOne | frontend/src/app/pair/page.tsx:105 | one accepted typed sequence is enough for submission |
| PairPage.Restore | frontend/src/app/pair/page.tsx:14-17 | each sequence becomes the stored value, or "" when nothing is stored; nothing else changes |
| PairPage.Page.SetSequence | frontend/src/app/pair/page.tsx:149 | the setter given to a handler changes only its field |
| PairPage.Page.RestoreFromStorage | frontend/src/app/pair/page.tsx:14-17 | the new state is Restore of the old |
| PairPage.Page.HandleInputChange | frontend/src/app/pair/page.tsx:70-81 | the new state is InputChange of the old state and the trimmed value |
| PairPage.Page.FileChosen | frontend/src/app/pair/page.tsx:41-53 | no file changes nothing; a bad extension only sets "Only .fasta or .txt files are allowed." |
| PairPage.Page.FileLoaded | frontend/src/app/pair/page.tsx:56-64 | the new state is FileLoad of the old |
| PairPage.Page.FileReadFailed | frontend/src/app/pair/page.tsx:66 | the message becomes "Failed to read the file." |
| PairPage.Page.SetDbSnpId | frontend/src/app/pair/page.tsx:165 | the dbSNP field stores the typed id unchecked and nothing else changes |
| PairPage.Page.HandleDbSnpSearch | frontend/src/app/pair/page.tsx:83-99 | a request is made iff the id is non-empty; the new state is DbSnpSearch of the old |
| PairPage.Page.HandleSubmit | frontend/src/app/pair/page.tsx:101-108 | sent iff SubmitAllowed; the new state is Submit of the old |
| HomePage.CleanBases | frontend/app/single/page.tsx:15-16 | the cleaned, upper-cased sequence passes the alphabet regex iff every non-white-space character is a base in either case |
| HomePage.ValidateSequence | frontend/app/single/page.tsx:14-23 | a rejection carries the character message or the length message |
| HomePage.ValidateChars | frontend/app/single/page.tsx:14-23 | the character message is given iff a non-white-space character is not a base, whatever the length; the length message iff the characters pass and more than 100 remain; accepted iff at most 100 (so exactly 100 passes) |
| HomePage.BlankPasses | frontend/app/single/page.tsx:16-22 | the empty or all-white-space sequence passes |
| HomePage.HeaderMarkRejected | frontend/app/single/page.tsx:16-17 | a '>' anywhere fails the character check |
| HomePage.ProcessContent | frontend/app/single/page.tsx:41-45 | the processed file content has no white space |
| HomePage.ProcessLines | frontend/app/single/page.tsx:41-45 | for content with no white space at either end, processing drops the lines starting with '>' as they are, joins the rest and removes white space |
| HomePage.MarkSurvives | frontend/app/single/page.tsx:43-45 | a '>' in a kept line survives into the processed sequence |
| HomePage.IndentedHeaderRejected | frontend/app/single/page.tsx:41-51 | a header line indented by white space is not dropped, so the file is refused with the character message |
| HomePage.InputChange | frontend/app/single/page.tsx:57-65 | a passing value is stored raw with the message cleared; otherwise the sequence is kept and the message is the check's |
| HomePage.FileLoad | frontend/app/single/page.tsx:39-52 | a passing processed sequence is stored and nothing else changes; otherwise only the message changes, to the validator's non-empty message for the processed sequence; a passing stored sequence keeps passing |
| HomePage.LoadedCouldBeTyped | frontend/app/single/page.tsx:39-65 | a sequence a file load stores would also be stored if it were typed into the field, since both go through the same validator |
| HomePage.DbSnpSearch | frontend/app/single/page.tsx:67-82 | an empty id only sets "Please provide a valid dbSNP ID."; a fetch sets the wild type unchecked; a failure sets its message |
| HomePage.FetchBypassesCheck | frontend/app/single/page.tsx:57-82 | a fetched sequence that fails the validator still becomes the wild type, unlike a typed or loaded one |
| HomePage.Page.HandleInputChange | frontend/app/single/page.tsx:57-65 | the new state is InputChange of the old |
| HomePage.Page.FileChosen | frontend/app/single/page.tsx:29-36 | the message is cleared even without a file; the file is read iff its name ends in ".txt" or ".fasta"; otherwise the message is the format error |
| HomePage.Page.FileLoaded | frontend/app/single/page.tsx:39-52 | the new state is FileLoad of the old |
| HomePage.Page.FileReadFailed | frontend/app/single/page.tsx:53 | the message becomes "Failed to read the file" |
| HomePage.Page.SetDbSnpId | frontend/app/single/page.tsx:214 | the dbSNP field stores the typed id unchecked and nothing else changes |
| HomePage.Page.HandleDbSnpSearch | frontend/app/single/page.tsx:67-82 | a request is made iff the id is non-empty; the new state is DbSnpSearch of the old |
| HomePage.Page.HandleSubmit | frontend/app/single/page.tsx:84-94 | no guard: the message is cleared (or becomes the request's failure) and the wild type is sent as it stands |

## Left out

- Database access (every `save_to_table_*`, `update_table_*`, `read_*` and `extract_*_from_database`), the subprocess pipeline, the thread pool, socket.io messages and the file system: this is I/O and concurrency.
- The statistics (z-scores, NaN handling, ranking, CSV output) and every `float()` conversion: these are floating point. Numbers are kept as their matched decimal text.
- The network and browser calls are parameters: the dbSNP fetch outcome (`FetchOutcome`), the analysis request's failure, and the `localStorage` values. `get_sequence`, `search_clinical_tables`, `router.push` and `fetch` itself are not modelled.
- In `get_dbSNP`, the unpacking of `result[3][0]`, `int(position)` and the sequence request are left out. The model starts from the record's rs number, allele string and the returned sequence. An index 50 beyond the sequence raises an uncaught IndexError in the source; the model reports it as `SequenceTooShort`.
- The pages read `data.sequence` from the dbSNP response, but the backend returns `wildType` and `mutantType`. The fetched value is a parameter, so the model does not capture that the running pages would store `undefined`.
- Python's `\d` accepts all Unicode decimal digits, and `str.isdigit` also accepts digits such as '²' and '①'. The model uses ASCII digits. On '²' or '①' the `isdigit` test at backend/pipeline/script.py:138-139 passes and the `float()` beside it then raises; the model rejects the value instead.
- `toUpperCase` is modelled as ASCII upper-casing. Both versions accept and reject the same inputs: among the characters whose full Unicode upper case is made only of A, C, G, U and T, only a, c, g, u and t have a one-character upper case. The message can differ, though. JavaScript upper-cases 'ﬆ' to "ST" and 'ẗ' to "T̈", so an input holding 'ﬆ' and a U gets "Sequence cannot contain both T and U." in the source, where the model reports the invalid-characters message.
- The "Unsupported file format." branch of `parseFileContent` is unreachable, because the file type is always "fasta" or "txt" when the parser is called. The "File processing error." fallback is unreachable too, because every throw is an `Error`.
- `generate_mutated_sequences`, imported by backend/app.py, is not part of this model; its source is not among the files.
- No pairwise alignment exists in these files, so none is modelled.
- The UI-only components (header, animations, the about and help pages, layout) are not modelled.
- SinglePage.Page.HandleSubmit, PairPage.Page.HandleSubmit: model the guard and the cleared message; the outcome of the analysis request after a successful guard is left out.
- Each handler runs as one atomic step. The asynchronous interleaving of a pending file read or fetch with later input is not modelled.
