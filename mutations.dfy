/// The single-nucleotide variant enumerator of the analysis pipeline and the
/// two checks the pipeline applies to the tools' output tokens
/// (backend/pipeline/script.py).
module Mutations {
  import opened Text

  /** The nucleotides generate_mutations tries, in the order it tries them. */
  const Nucleotides: seq<char> := ['A', 'C', 'G', 'U']

  /** What a key shows on the missing side of a deletion or an insertion. */
  const Gap: char := '-'

  /** A mutation key "{original}_{position}_{replacement}"; the position is
      1-based. */
  datatype Key = Key(original: char, position: nat, replacement: char)

  /** One yielded pair: the key and the mutated sequence. */
  datatype Mutation = Mutation(key: Key, sequence: string)

  function NucleotideIndex(c: char): nat {
    if c == 'A' then 0 else if c == 'C' then 1 else if c == 'G' then 2 else 3
  }

  // ---------------------------------------------------------------------
  // generate_mutations, loop by loop

  /** sequence[:i] + nucleotide + sequence[i+1:] with its key. */
  function Substitute(s: string, i: nat, j: nat): Mutation
    requires i < |s| && j < 4
  {
    Mutation(Key(s[i], i + 1, Nucleotides[j]), s[..i] + [Nucleotides[j]] + s[i + 1..])
  }

  /** The inner substitution loop at index i, from Nucleotides[j] on:
      a nucleotide equal to s[i] is skipped. */
  function SubstitutionsAt(s: string, i: nat, j: nat): seq<Mutation>
    requires i < |s| && j <= 4
    decreases 4 - j
  {
    if j == 4 then []
    else if Nucleotides[j] != s[i] then [Substitute(s, i, j)] + SubstitutionsAt(s, i, j + 1)
    else SubstitutionsAt(s, i, j + 1)
  }

  function SubstitutionsFrom(s: string, i: nat): seq<Mutation>
    requires i <= |s|
    decreases |s| - i
  {
    if i == |s| then [] else SubstitutionsAt(s, i, 0) + SubstitutionsFrom(s, i + 1)
  }

  /** sequence[:i] + sequence[i+1:] with its key. */
  function Delete(s: string, i: nat): Mutation
    requires i < |s|
  {
    Mutation(Key(s[i], i + 1, Gap), s[..i] + s[i + 1..])
  }

  function DeletionsFrom(s: string, i: nat): seq<Mutation>
    requires i <= |s|
    decreases |s| - i
  {
    if i == |s| then [] else [Delete(s, i)] + DeletionsFrom(s, i + 1)
  }

  /** sequence[:i] + nucleotide + sequence[i:] with its key. */
  function Insert(s: string, i: nat, j: nat): Mutation
    requires i <= |s| && j < 4
  {
    Mutation(Key(Gap, i + 1, Nucleotides[j]), s[..i] + [Nucleotides[j]] + s[i..])
  }

  function InsertionsAt(s: string, i: nat, j: nat): seq<Mutation>
    requires i <= |s| && j <= 4
    decreases 4 - j
  {
    if j == 4 then [] else [Insert(s, i, j)] + InsertionsAt(s, i, j + 1)
  }

  function InsertionsFrom(s: string, i: nat): seq<Mutation>
    requires i <= |s| + 1
    decreases |s| + 1 - i
  {
    if i == |s| + 1 then [] else InsertionsAt(s, i, 0) + InsertionsFrom(s, i + 1)
  }

  function Substitutions(s: string): seq<Mutation> {
    SubstitutionsFrom(s, 0)
  }

  function Deletions(s: string): seq<Mutation> {
    DeletionsFrom(s, 0)
  }

  function Insertions(s: string): seq<Mutation> {
    InsertionsFrom(s, 0)
  }

  /** Everything generate_mutations yields, in the order it yields it. */
  function GenerateMutations(s: string): seq<Mutation> {
    Substitutions(s) + Deletions(s) + Insertions(s)
  }

  // ---------------------------------------------------------------------
  // What each kind of variant is, stated without the loops

  /** A single-nucleotide substitution of s: a nucleotide other than the
      original at one 1-based position, everything else unchanged. */
  predicate IsSubstitutionOf(s: string, m: Mutation) {
    && 1 <= m.key.position <= |s|
    && m.key.original == s[m.key.position - 1]
    && m.key.replacement in Nucleotides
    && m.key.replacement != m.key.original
    && m.sequence == s[m.key.position - 1 := m.key.replacement]
  }

  /** The deletion of s[i]: one shorter, the characters on either side kept. */
  predicate IsDeletionAt(s: string, m: Mutation, i: nat)
    requires i < |s|
  {
    && m.key == Key(s[i], i + 1, Gap)
    && |m.sequence| == |s| - 1
    && m.sequence[..i] == s[..i]
    && m.sequence[i..] == s[i + 1..]
  }

  /** The insertion of nt before s[i] (or at the end when i == |s|). */
  predicate IsInsertionAt(s: string, m: Mutation, i: nat, nt: char)
    requires i <= |s|
  {
    && m.key == Key(Gap, i + 1, nt)
    && |m.sequence| == |s| + 1
    && m.sequence[..i] == s[..i]
    && m.sequence[i] == nt
    && m.sequence[i + 1..] == s[i..]
  }

  /** Position-major, nucleotide-minor order of substitution keys. */
  function Rank(k: Key): int {
    4 * (k.position - 1) + NucleotideIndex(k.replacement)
  }

  predicate StrictlyRanked(ms: seq<Mutation>) {
    forall a, b :: 0 <= a < b < |ms| ==> Rank(ms[a].key) < Rank(ms[b].key)
  }

  predicate AllNucleotides(s: string) {
    forall i :: 0 <= i < |s| ==> s[i] in Nucleotides
  }

  /** Number of characters of s[i..] outside A, C, G, U. */
  function ForeignFrom(s: string, i: nat): nat
    requires i <= |s|
    decreases |s| - i
  {
    if i == |s| then 0 else (if s[i] in Nucleotides then 0 else 1) + ForeignFrom(s, i + 1)
  }

  function ForeignCount(s: string): nat {
    ForeignFrom(s, 0)
  }

  // ---------------------------------------------------------------------
  // Substitutions

  lemma RankedConcat(a: seq<Mutation>, b: seq<Mutation>, bound: int)
    requires StrictlyRanked(a) && StrictlyRanked(b)
    requires forall m :: m in a ==> Rank(m.key) < bound
    requires forall m :: m in b ==> bound <= Rank(m.key)
    ensures StrictlyRanked(a + b)
  {
    var c := a + b;
    forall x, y | 0 <= x < y < |c| ensures Rank(c[x].key) < Rank(c[y].key) {
      if y < |a| {
        assert c[x] == a[x] && c[y] == a[y];
      } else if x >= |a| {
        assert c[x] == b[x - |a|] && c[y] == b[y - |a|];
      } else {
        assert c[x] == a[x] && a[x] in a;
        assert c[y] == b[y - |a|] && b[y - |a|] in b;
      }
    }
  }

  /** The substitution of Nucleotides[j] at index i is one, with rank 4i + j. */
  lemma SubstituteIsSubstitution(s: string, i: nat, j: nat)
    requires i < |s| && j < 4 && Nucleotides[j] != s[i]
    ensures IsSubstitutionOf(s, Substitute(s, i, j))
    ensures Rank(Substitute(s, i, j).key) == 4 * i + j
  {
    assert s[..i] + [Nucleotides[j]] + s[i + 1..] == s[i := Nucleotides[j]];
  }

  /** A substitution at index i with Nucleotides[j] is the one built there. */
  lemma SubstitutionIsSubstitute(s: string, m: Mutation, i: nat, j: nat)
    requires i < |s| && j < 4 && IsSubstitutionOf(s, m)
    requires m.key.position == i + 1 && NucleotideIndex(m.key.replacement) == j
    ensures m == Substitute(s, i, j)
  {
    assert m.key.replacement == Nucleotides[j];
    assert s[..i] + [Nucleotides[j]] + s[i + 1..] == s[i := Nucleotides[j]];
  }

  /** The inner loop at index i, from Nucleotides[j] on, yields exactly the
      substitutions at position i + 1 whose nucleotide comes at or after
      Nucleotides[j]. */
  lemma {:induction false} SubstitutionsAtMembers(s: string, i: nat, j: nat)
    requires i < |s| && j <= 4
    ensures forall m :: m in SubstitutionsAt(s, i, j) <==>
      IsSubstitutionOf(s, m) && m.key.position == i + 1 && NucleotideIndex(m.key.replacement) >= j
    decreases 4 - j
  {
    if j < 4 {
      SubstitutionsAtMembers(s, i, j + 1);
      if Nucleotides[j] != s[i] {
        var m0 := Substitute(s, i, j);
        SubstituteIsSubstitution(s, i, j);
        forall m | IsSubstitutionOf(s, m) && m.key.position == i + 1 && NucleotideIndex(m.key.replacement) == j
          ensures m == m0
        {
          SubstitutionIsSubstitute(s, m, i, j);
        }
      } else {
        forall m | IsSubstitutionOf(s, m) && m.key.position == i + 1
          ensures NucleotideIndex(m.key.replacement) != j
        {
        }
      }
    }
  }

  /** ... in increasing rank, within the ranks of position i + 1, and three
      of them from j == 0 when s[i] is a nucleotide, four otherwise. */
  lemma {:induction false} SubstitutionsAtRanked(s: string, i: nat, j: nat)
    requires i < |s| && j <= 4
    ensures forall m :: m in SubstitutionsAt(s, i, j) ==> 4 * i + j <= Rank(m.key) < 4 * i + 4
    ensures StrictlyRanked(SubstitutionsAt(s, i, j))
    ensures |SubstitutionsAt(s, i, j)| == (4 - j) - (if s[i] in Nucleotides[j..] then 1 else 0)
    decreases 4 - j
  {
    if j < 4 {
      SubstitutionsAtRanked(s, i, j + 1);
      var rest := SubstitutionsAt(s, i, j + 1);
      var nt := Nucleotides[j];
      assert Nucleotides[j..] == [nt] + Nucleotides[j + 1..];
      if nt != s[i] {
        SubstituteIsSubstitution(s, i, j);
        RankedConcat([Substitute(s, i, j)], rest, 4 * i + j + 1);
      }
    }
  }

  lemma {:induction false} SubstitutionsFromFacts(s: string, i: nat)
    requires i <= |s|
    ensures forall m :: m in SubstitutionsFrom(s, i) <==> IsSubstitutionOf(s, m) && m.key.position > i
    ensures forall m :: m in SubstitutionsFrom(s, i) ==> 4 * i <= Rank(m.key)
    ensures StrictlyRanked(SubstitutionsFrom(s, i))
    ensures |SubstitutionsFrom(s, i)| == 3 * (|s| - i) + ForeignFrom(s, i)
    decreases |s| - i
  {
    if i < |s| {
      SubstitutionsAtMembers(s, i, 0);
      SubstitutionsAtRanked(s, i, 0);
      SubstitutionsFromFacts(s, i + 1);
      RankedConcat(SubstitutionsAt(s, i, 0), SubstitutionsFrom(s, i + 1), 4 * i + 4);
      assert Nucleotides[0..] == Nucleotides;
    }
  }

  /** The substitutions are exactly the single-nucleotide substitutions of s,
      each once, ordered by position and then by A, C, G, U; a position holding
      a nucleotide gets three, any other character four. */
  lemma SubstitutionsExact(s: string)
    ensures forall m :: m in Substitutions(s) <==> IsSubstitutionOf(s, m)
    ensures StrictlyRanked(Substitutions(s))
    ensures |Substitutions(s)| == 3 * |s| + ForeignCount(s)
  {
    SubstitutionsFromFacts(s, 0);
  }

  // ---------------------------------------------------------------------
  // Deletions and insertions

  lemma {:induction false} DeletionsFromFacts(s: string, i: nat)
    requires i <= |s|
    ensures |DeletionsFrom(s, i)| == |s| - i
    ensures forall k :: 0 <= k < |s| - i ==> DeletionsFrom(s, i)[k] == Delete(s, i + k)
    decreases |s| - i
  {
    if i < |s| {
      DeletionsFromFacts(s, i + 1);
      var rest := DeletionsFrom(s, i + 1);
      forall k | 0 <= k < |s| - i ensures DeletionsFrom(s, i)[k] == Delete(s, i + k) {
        if k > 0 {
          assert DeletionsFrom(s, i)[k] == rest[k - 1];
        }
      }
    }
  }

  /** Exactly one deletion per position, in order, each one shorter. */
  lemma DeletionsExact(s: string)
    ensures |Deletions(s)| == |s|
    ensures forall k :: 0 <= k < |s| ==> IsDeletionAt(s, Deletions(s)[k], k)
  {
    DeletionsFromFacts(s, 0);
    forall k | 0 <= k < |s| ensures IsDeletionAt(s, Deletions(s)[k], k) {
      var m := Delete(s, k);
      assert m.sequence[..k] == s[..k];
      assert m.sequence[k..] == s[k + 1..];
    }
  }

  lemma {:induction false} InsertionsAtFacts(s: string, i: nat, j: nat)
    requires i <= |s| && j <= 4
    ensures |InsertionsAt(s, i, j)| == 4 - j
    ensures forall k :: 0 <= k < 4 - j ==> InsertionsAt(s, i, j)[k] == Insert(s, i, j + k)
    decreases 4 - j
  {
    if j < 4 {
      InsertionsAtFacts(s, i, j + 1);
    }
  }

  lemma {:induction false} InsertionsFromLength(s: string, i: nat)
    requires i <= |s| + 1
    ensures |InsertionsFrom(s, i)| == 4 * (|s| + 1 - i)
    decreases |s| + 1 - i
  {
    if i <= |s| {
      InsertionsAtFacts(s, i, 0);
      InsertionsFromLength(s, i + 1);
    }
  }

  /** One step of the outer insertion loop: four insertions at i, then
      the rest. */
  lemma InsertionsFromStep(s: string, i: nat)
    requires i <= |s|
    ensures InsertionsFrom(s, i) == InsertionsAt(s, i, 0) + InsertionsFrom(s, i + 1)
    ensures |InsertionsAt(s, i, 0)| == 4 && |InsertionsFrom(s, i + 1)| == 4 * (|s| - i)
  {
    InsertionsAtFacts(s, i, 0);
    InsertionsFromLength(s, i + 1);
  }

  lemma {:induction false} InsertionsFromElement(s: string, i: nat, j: nat, r: nat)
    requires i <= j <= |s| && r < 4
    ensures 4 * (j - i) + r < |InsertionsFrom(s, i)| && r < |InsertionsAt(s, j, 0)|
    ensures InsertionsFrom(s, i)[4 * (j - i) + r] == InsertionsAt(s, j, 0)[r]
    decreases j - i
  {
    InsertionsFromStep(s, i);
    var here, rest := InsertionsAt(s, i, 0), InsertionsFrom(s, i + 1);
    var k := 4 * (j - i) + r;
    if i == j {
      assert (here + rest)[k] == here[r];
    } else {
      InsertionsFromElement(s, i + 1, j, r);
      assert (here + rest)[k] == rest[k - 4];
    }
  }

  /** Four insertions per gap between characters (n + 1 gaps), in the order
      A, C, G, U, each one longer with the nucleotide at that index. */
  lemma InsertionsExact(s: string)
    ensures |Insertions(s)| == 4 * (|s| + 1)
    ensures forall k :: 0 <= k < |Insertions(s)| ==>
      k / 4 <= |s| && IsInsertionAt(s, Insertions(s)[k], k / 4, Nucleotides[k % 4])
  {
    InsertionsFromLength(s, 0);
    forall k | 0 <= k < |Insertions(s)|
      ensures k / 4 <= |s| && IsInsertionAt(s, Insertions(s)[k], k / 4, Nucleotides[k % 4])
    {
      var i, r := k / 4, k % 4;
      assert 4 * (i - 0) + r == k;
      InsertionsFromElement(s, 0, i, r);
      InsertionsAtFacts(s, i, 0);
      InsertIsInsertion(s, i, r);
    }
  }

  /** Insert builds the insertion of Nucleotides[j] before index i. */
  lemma InsertIsInsertion(s: string, i: nat, j: nat)
    requires i <= |s| && j < 4
    ensures IsInsertionAt(s, Insert(s, i, j), i, Nucleotides[j])
  {
    var m := Insert(s, i, j);
    assert m.sequence[..i] == s[..i];
    assert m.sequence[i + 1..] == s[i..];
  }

  // ---------------------------------------------------------------------
  // The whole enumeration

  /** All substitutions come first, then all deletions, then all
      insertions, and the total is 8n + 4 plus one per character outside
      A, C, G, U. */
  lemma GenerateMutationsLayout(s: string)
    ensures var g, n := GenerateMutations(s), |Substitutions(s)|;
      && n == 3 * |s| + ForeignCount(s)
      && |g| == n + |s| + 4 * (|s| + 1)
      && g[..n] == Substitutions(s)
      && (forall k :: 0 <= k < n ==> IsSubstitutionOf(s, g[k]))
      && (forall k :: n <= k < n + |s| ==> IsDeletionAt(s, g[k], k - n))
      && (forall k :: n + |s| <= k < |g| ==>
            (k - n - |s|) / 4 <= |s| && IsInsertionAt(s, g[k], (k - n - |s|) / 4, Nucleotides[(k - n - |s|) % 4]))
  {
    var g, subs := GenerateMutations(s), Substitutions(s);
    SubstitutionSection(s);
    DeletionSection(s);
    InsertionSection(s);
    SubstitutionsExact(s);
    forall k | 0 <= k < |subs| ensures IsSubstitutionOf(s, g[k]) {
      assert g[k] == g[..|subs|][k] == subs[k] && subs[k] in subs;
    }
  }

  lemma SubstitutionSection(s: string)
    ensures var g, n := GenerateMutations(s), |Substitutions(s)|;
      |g| == n + |s| + 4 * (|s| + 1) && g[..n] == Substitutions(s)
  {
    var subs, rest := Substitutions(s), Deletions(s) + Insertions(s);
    assert |rest| == |s| + 4 * (|s| + 1) by {
      DeletionsFromFacts(s, 0);
      InsertionsFromLength(s, 0);
    }
    assert GenerateMutations(s) == subs + rest;
    TakeOfConcat(subs, rest);
  }

  lemma TakeOfConcat(a: seq<Mutation>, b: seq<Mutation>)
    ensures (a + b)[..|a|] == a
  {
  }

  lemma DeletionSection(s: string)
    ensures var g, n := GenerateMutations(s), |Substitutions(s)|;
      n + |s| <= |g| && forall k :: n <= k < n + |s| ==> IsDeletionAt(s, g[k], k - n)
  {
    var g, n, dels := GenerateMutations(s), |Substitutions(s)|, Deletions(s);
    DeletionsExact(s);
    forall k | n <= k < n + |s| ensures IsDeletionAt(s, g[k], k - n) {
      assert g == Substitutions(s) + dels + Insertions(s);
      assert g[k] == dels[k - n];
    }
  }

  lemma InsertionSection(s: string)
    ensures var g, n := GenerateMutations(s), |Substitutions(s)|;
      forall k :: n + |s| <= k < |g| ==>
        (k - n - |s|) / 4 <= |s| && IsInsertionAt(s, g[k], (k - n - |s|) / 4, Nucleotides[(k - n - |s|) % 4])
  {
    var g, n, ins := GenerateMutations(s), |Substitutions(s)|, Insertions(s);
    DeletionsExact(s);
    InsertionsExact(s);
    forall k | n + |s| <= k < |g|
      ensures (k - n - |s|) / 4 <= |s| && IsInsertionAt(s, g[k], (k - n - |s|) / 4, Nucleotides[(k - n - |s|) % 4])
    {
      assert g == (Substitutions(s) + Deletions(s)) + ins;
      assert g[k] == ins[k - n - |s|];
    }
  }

  lemma NucleotidesDistinct()
    ensures forall p, q :: 0 <= p < q < 4 ==> Nucleotides[p] != Nucleotides[q]
    ensures Gap !in Nucleotides
  {
  }

  /** The key of the k-th yielded variant of a sequence without '-', by
      section: a substitution's key is that of a single-nucleotide
      substitution of s, its original never '-'; a deletion's and an
      insertion's key follow from k. */
  lemma KeyAt(s: string, k: nat)
    requires Gap !in s && k < |GenerateMutations(s)|
    ensures var g, n := GenerateMutations(s), |Substitutions(s)|;
      && (k < n ==> g[k] == Substitutions(s)[k] && IsSubstitutionOf(s, g[k]) && g[k].key.original != Gap)
      && (n <= k < n + |s| ==> g[k].key == Key(s[k - n], k - n + 1, Gap))
      && (n + |s| <= k ==> g[k].key == Key(Gap, (k - n - |s|) / 4 + 1, Nucleotides[(k - n - |s|) % 4]))
  {
    var g, n := GenerateMutations(s), |Substitutions(s)|;
    GenerateMutationsLayout(s);
    if k < n {
      assert g[k] == Substitutions(s)[k];
      var p := g[k].key.position - 1;
      assert IsSubstitutionOf(s, g[k]);
      assert g[k].key.original == s[p];
    }
  }

  /** For any sequence without '-' (upper or lower case, T included) no two
      yielded keys are equal, so a key names its variant. */
  lemma KeysDistinct(s: string)
    requires Gap !in s
    ensures forall a, b :: 0 <= a < b < |GenerateMutations(s)| ==>
      GenerateMutations(s)[a].key != GenerateMutations(s)[b].key
  {
    var g, n := GenerateMutations(s), |Substitutions(s)|;
    forall a, b | 0 <= a < b < |g| ensures g[a].key != g[b].key {
      KeyAt(s, a);
      KeyAt(s, b);
      NucleotidesDistinct();
      if b < n {
        SubstitutionsExact(s);
        assert Rank(g[a].key) < Rank(g[b].key);
      } else if n + |s| <= a {
        var x, y := a - n - |s|, b - n - |s|;
        assert x / 4 < y / 4 || x % 4 < y % 4;
      }
    }
  }

  // ---------------------------------------------------------------------
  // Rendering keys

  function Digit(k: nat): char
    requires k < 10
  {
    ('0' as int + k) as char
  }

  /** The value of a string of decimal digits. */
  function DecimalValue(r: string): nat
    requires AllDigits(r)
  {
    if r == [] then 0 else 10 * DecimalValue(r[..|r| - 1]) + (r[|r| - 1] as int - '0' as int)
  }

  /** n in decimal, as an f-string renders an int: digits only, no leading
      zero, and reading it back gives n. */
  function DecimalDigits(n: nat): (r: string)
    ensures r != [] && AllDigits(r)
    ensures DecimalValue(r) == n
    ensures r[0] == '0' ==> n == 0
  {
    if n < 10 then [Digit(n)]
    else
      var r := DecimalDigits(n / 10) + [Digit(n % 10)];
      assert r[..|r| - 1] == DecimalDigits(n / 10);
      r
  }

  /** The key as generate_mutations formats it. */
  function KeyText(k: Key): string {
    [k.original] + "_" + DecimalDigits(k.position) + "_" + [k.replacement]
  }

  /** Reading a key back: one character, '_', a canonical decimal, '_', one
      character. */
  function ParseKey(t: string): Option<Key> {
    if |t| >= 5 && t[1] == '_' && t[|t| - 2] == '_' && AllDigits(t[2..|t| - 2])
       && DecimalDigits(DecimalValue(t[2..|t| - 2])) == t[2..|t| - 2]
    then Some(Key(t[0], DecimalValue(t[2..|t| - 2]), t[|t| - 1]))
    else None
  }

  /** Where the parts of a key text sit. */
  lemma KeyTextParts(o: char, d: string, r: char)
    ensures var t := [o] + "_" + d + "_" + [r];
      && |t| == |d| + 4 && t[0] == o && t[1] == '_' && t[|t| - 2] == '_' && t[|t| - 1] == r
      && t[2..|t| - 2] == d
  {
    var t := [o] + "_" + d + "_" + [r];
    forall x | 0 <= x < |d|
      ensures t[2..|t| - 2][x] == d[x]
    {
      assert t[x + 2] == d[x];
    }
  }

  /** A text of at least four characters is its ends around its middle. */
  lemma KeyTextSplit(t: string)
    requires |t| >= 4 && t[1] == '_' && t[|t| - 2] == '_'
    ensures t == [t[0]] + "_" + t[2..|t| - 2] + "_" + [t[|t| - 1]]
  {
    var u := [t[0]] + "_" + t[2..|t| - 2] + "_" + [t[|t| - 1]];
    KeyTextParts(t[0], t[2..|t| - 2], t[|t| - 1]);
    forall x | 0 <= x < |t|
      ensures u[x] == t[x]
    {
      if 2 <= x < |t| - 2 {
        assert u[2..|u| - 2][x - 2] == u[x];
      }
    }
  }

  /** The key text determines the key and the key the text. */
  lemma KeyTextRoundTrip(k: Key, t: string)
    ensures ParseKey(t) == Some(k) <==> KeyText(k) == t
  {
    var d := DecimalDigits(k.position);
    if KeyText(k) == t {
      KeyTextParts(k.original, d, k.replacement);
    }
    if ParseKey(t) == Some(k) {
      KeyTextSplit(t);
    }
  }

  // ---------------------------------------------------------------------
  // The checks applied to the tools' output

  /** What process_mutation reads when RNAdistance-result.txt is missing. */
  const MissingDistanceTokens: seq<string> := ["Error", "RNAdistance-result.txt not found."]

  /** The 'RNAdistance(f)' field: the second white-space separated token of
      the stripped result file, or "Error" when there are fewer than two.
      None stands for a missing result file. */
  function DistanceField(content: Option<string>): string {
    var tokens := if content.Some? then Tokens(Trim(Py, content.value)) else MissingDistanceTokens;
    if |tokens| > 1 then tokens[1] else "Error"
  }

  /** RNAdistance prints "f: <distance>": with any white space around and
      between, and anything after white space, the field is the distance. */
  lemma DistanceFieldIsSecondWord(lead: string, first: string, gap: string, second: string, tail: string)
    requires AllSpace(Py, lead) && AllSpace(Py, gap) && gap != []
    requires first != [] && NoSpace(Py, first) && second != [] && NoSpace(Py, second)
    requires tail == [] || IsPySpace(tail[0])
    ensures DistanceField(Some(lead + first + gap + second + tail)) == second
  {
    var content := lead + first + gap + second + tail;
    assert content == lead + (first + (gap + (second + tail)));
    TokensOfTwoWords(lead, first, gap, second, tail);
    TokensOfTrim(content);
  }

  /** A file with fewer than two tokens gives "Error". */
  lemma DistanceFieldFewTokens(content: string)
    requires |Tokens(content)| < 2
    ensures DistanceField(Some(content)) == "Error"
  {
    TokensOfTrim(content);
  }

  /** value.replace('.', '', 1): the first '.' deleted. */
  function RemoveFirstDot(v: string): (r: string) {
    if v == [] then []
    else if v[0] == '.' then v[1..]
    else [v[0]] + RemoveFirstDot(v[1..])
  }

  /** value.replace('.', '', 1).isdigit(): the test deciding whether a
      result value is converted with float() or becomes NaN. */
  predicate IsNumericToken(v: string) {
    var r := RemoveFirstDot(v);
    r != [] && AllDigits(r)
  }

  /** Index of the first '.' of v, or |v| when there is none. */
  function DotIndex(v: string): (k: nat)
    ensures k <= |v| && (k < |v| ==> v[k] == '.')
    ensures forall i :: 0 <= i < k ==> v[i] != '.'
  {
    if v == [] || v[0] == '.' then 0 else 1 + DotIndex(v[1..])
  }

  lemma {:induction false} RemoveFirstDotAt(v: string)
    ensures RemoveFirstDot(v) == if DotIndex(v) < |v| then v[..DotIndex(v)] + v[DotIndex(v) + 1..] else v
  {
    if v != [] && v[0] != '.' {
      RemoveFirstDotAt(v[1..]);
      var k := DotIndex(v);
      assert v[..k] == [v[0]] + v[1..][..k - 1];
      if k < |v| {
        assert v[k + 1..] == v[1..][k..];
      } else {
        assert v == [v[0]] + v[1..];
      }
    }
  }

  /** The first '.' is where DotIndex points. */
  lemma {:induction false} DotIndexIs(v: string, j: nat)
    requires j < |v| && v[j] == '.'
    requires forall i :: 0 <= i < j ==> v[i] != '.'
    ensures DotIndex(v) == j
  {
    if j > 0 {
      DotIndexIs(v[1..], j - 1);
    }
  }

  /** A value is numeric exactly when it is a non-empty run of digits, or
      digits, one '.', digits with at least one digit in all: a sign, an
      exponent or a second '.' makes it NaN. */
  lemma NumericTokenShape(v: string)
    ensures IsNumericToken(v) <==>
      (v != [] && AllDigits(v))
      || (exists k :: 0 <= k < |v| && v[k] == '.' && |v| > 1 && AllDigits(v[..k]) && AllDigits(v[k + 1..]))
  {
    var k := DotIndex(v);
    RemoveFirstDotAt(v);
    if k < |v| {
      var p, q := v[..k], v[k + 1..];
      assert RemoveFirstDot(v) == p + q;
      if IsNumericToken(v) {
        assert AllDigits(p) && AllDigits(q) by {
          forall i | 0 <= i < |p| ensures IsDigit(p[i]) { assert (p + q)[i] == p[i]; }
          forall i | 0 <= i < |q| ensures IsDigit(q[i]) { assert (p + q)[|p| + i] == q[i]; }
        }
      }
      if exists k' :: 0 <= k' < |v| && v[k'] == '.' && |v| > 1 && AllDigits(v[..k']) && AllDigits(v[k' + 1..]) {
        var k' :| 0 <= k' < |v| && v[k'] == '.' && |v| > 1 && AllDigits(v[..k']) && AllDigits(v[k' + 1..]);
        forall i | 0 <= i < k' ensures v[i] != '.' { assert IsDigit(v[..k'][i]); }
        DotIndexIs(v, k');
      }
      assert !AllDigits(v) by { assert !IsDigit(v[k]); }
    } else {
      assert RemoveFirstDot(v) == v;
    }
  }
}
