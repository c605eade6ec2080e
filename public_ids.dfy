/**
 * Public identifiers: `<prefix>_<code>`, where the prefix names the kind of
 * object and the code is ten characters drawn from a 62-letter alphabet.
 * The random generator that draws the code is library code; the code
 * enters as a parameter.
 */
module PublicIds {
  import opened Wrappers

  /** Number of characters in the random part of an identifier. */
  const ID_LENGTH: nat := 10

  /** The three runs of the alphabet. */
  const DIGITS: string := "0123456789"
  const UPPER: string := "ABCDEFGHIJKLMNOPQRSTUVWXYZ"
  const LOWER: string := "abcdefghijklmnopqrstuvwxyz"

  /** The characters a code is drawn from, in the order the source lists them. */
  const ALPHABET: string := DIGITS + UPPER + LOWER

  /** The kinds of object that carry a public identifier. */
  datatype IdTypes =
    | ApiKey
    | Connection
    | Schema
    | Pipeline
    | PipelineDefinition
    | JobConfig
    | Checkpoint
    | JobStatus
    | ClusterInfo
    | JobLogMessage
    | ConnectionTable
    | ConnectionTablePipeline

  /** Every kind, in declaration order. */
  const ALL_ID_TYPES: seq<IdTypes> := [
    ApiKey, Connection, Schema, Pipeline, PipelineDefinition, JobConfig,
    Checkpoint, JobStatus, ClusterInfo, JobLogMessage, ConnectionTable, ConnectionTablePipeline
  ]

  /** The prefix table of `generate_id`; no prefix is empty or contains the separator. */
  function Prefix(t: IdTypes): (r: string)
    ensures |r| > 0
    ensures '_' !in r
  {
    match t
    case ApiKey => "ak"
    case Connection => "conn"
    case Schema => "sch"
    case Pipeline => "pl"
    case PipelineDefinition => "pld"
    case JobConfig => "jc"
    case Checkpoint => "cp"
    case JobStatus => "js"
    case ClusterInfo => "ci"
    case JobLogMessage => "jlm"
    case ConnectionTable => "ct"
    case ConnectionTablePipeline => "ctp"
  }

  /** The table lists every kind. */
  lemma AllIdTypesComplete(t: IdTypes)
    ensures t in ALL_ID_TYPES
  {
  }

  /** Distinct kinds have distinct prefixes. */
  lemma PrefixInjective(a: IdTypes, b: IdTypes)
    ensures Prefix(a) == Prefix(b) ==> a == b
  {
  }

  /** A valid random part: `ID_LENGTH` characters, all from `ALPHABET`. */
  predicate IsCode(code: string) {
    |code| == ID_LENGTH && forall i :: 0 <= i < |code| ==> code[i] in ALPHABET
  }

  /** `generate_id` with the random part `code` supplied: the prefix, `_`, then the code. */
  function GenerateId(t: IdTypes, code: string): (r: string)
    requires IsCode(code)
    ensures |r| == |Prefix(t)| + 1 + ID_LENGTH
    ensures r[..|Prefix(t)|] == Prefix(t)
    ensures r[|Prefix(t)|] == '_'
    ensures r[|Prefix(t)| + 1..] == code
    ensures forall i :: |Prefix(t)| < i < |r| ==> r[i] in ALPHABET
  {
    Prefix(t) + "_" + code
  }

  /** The text before the first `_`, or all of `s` when it has none. */
  function BeforeFirstUnderscore(s: string): (r: string)
    ensures |r| <= |s| && r == s[..|r|]
    ensures '_' !in r
    ensures |r| < |s| ==> s[|r|] == '_'
  {
    if s == [] || s[0] == '_' then [] else [s[0]] + BeforeFirstUnderscore(s[1..])
  }

  /** The text before the first `_` of `p + "_" + rest` is `p` when `p` has no `_`. */
  lemma {:induction false} BeforeFirstUnderscoreOfJoin(p: string, rest: string)
    requires '_' !in p
    ensures BeforeFirstUnderscore(p + "_" + rest) == p
    decreases |p|
  {
    if p != [] {
      assert (p + "_" + rest)[1..] == p[1..] + "_" + rest;
      BeforeFirstUnderscoreOfJoin(p[1..], rest);
    }
  }

  /** The kind, among `ALL_ID_TYPES[from..]`, whose prefix is `p`. */
  function FindIdType(p: string, from: nat): (r: Option<IdTypes>)
    requires from <= |ALL_ID_TYPES|
    ensures r.Some? ==> Prefix(r.value) == p
    ensures r.None? ==> forall k :: from <= k < |ALL_ID_TYPES| ==> Prefix(ALL_ID_TYPES[k]) != p
    decreases |ALL_ID_TYPES| - from
  {
    if from == |ALL_ID_TYPES| then None
    else if Prefix(ALL_ID_TYPES[from]) == p then Some(ALL_ID_TYPES[from])
    else FindIdType(p, from + 1)
  }

  /** The kind an identifier names: the one whose prefix is the text before its first `_`. */
  function IdTypeOf(id: string): (r: Option<IdTypes>)
    ensures r.Some? ==> Prefix(r.value) == BeforeFirstUnderscore(id)
  {
    FindIdType(BeforeFirstUnderscore(id), 0)
  }

  /**
   * A generated identifier names its kind: the text before its first `_` is
   * exactly the prefix, even where one prefix starts another (`pl`/`pld`,
   * `ct`/`ctp`).
   */
  lemma GeneratedIdNamesItsType(t: IdTypes, code: string)
    requires IsCode(code)
    ensures BeforeFirstUnderscore(GenerateId(t, code)) == Prefix(t)
    ensures IdTypeOf(GenerateId(t, code)) == Some(t)
  {
    BeforeFirstUnderscoreOfJoin(Prefix(t), code);
    AllIdTypesComplete(t);
    var r := IdTypeOf(GenerateId(t, code));
    if r.Some? {
      PrefixInjective(r.value, t);
    }
  }

  /** Identifiers of different kinds never coincide, whatever their codes. */
  lemma GeneratedIdsOfDistinctTypesDiffer(a: IdTypes, codeA: string, b: IdTypes, codeB: string)
    requires IsCode(codeA) && IsCode(codeB)
    requires a != b
    ensures GenerateId(a, codeA) != GenerateId(b, codeB)
  {
    GeneratedIdNamesItsType(a, codeA);
    GeneratedIdNamesItsType(b, codeB);
  }

  /** The `i`-th alphabet character, computed: digits, then upper case, then lower case. */
  function AlphabetChar(i: nat): (ch: char)
    requires i < 62
  {
    if i < 10 then ('0' as int + i) as char
    else if i < 36 then ('A' as int + (i - 10)) as char
    else ('a' as int + (i - 36)) as char
  }

  /** Each run is a contiguous range of character codes. */
  lemma AlphabetRuns()
    ensures |DIGITS| == 10 && forall i :: 0 <= i < 10 ==> DIGITS[i] == ('0' as int + i) as char
    ensures |UPPER| == 26 && forall i :: 0 <= i < 26 ==> UPPER[i] == ('A' as int + i) as char
    ensures |LOWER| == 26 && forall i :: 0 <= i < 26 ==> LOWER[i] == ('a' as int + i) as char
  {
  }

  /** The listed alphabet is the computed one, character by character. */
  lemma AlphabetIsComputed()
    ensures |ALPHABET| == 62
    ensures forall i :: 0 <= i < 62 ==> ALPHABET[i] == AlphabetChar(i)
  {
    AlphabetRuns();
    forall i | 0 <= i < 62 ensures ALPHABET[i] == AlphabetChar(i) {
      if i < 10 {
        assert ALPHABET[i] == DIGITS[i];
      } else if i < 36 {
        assert ALPHABET[i] == UPPER[i - 10];
      } else {
        assert ALPHABET[i] == LOWER[i - 36];
      }
    }
  }

  /**
   * `ALPHABET` has 62 characters in strictly ascending order (so pairwise
   * distinct), and a character is in it exactly when it is `0`-`9`, `A`-`Z`
   * or `a`-`z`.
   */
  lemma AlphabetSpec()
    ensures |ALPHABET| == 62
    ensures forall i, j :: 0 <= i < j < |ALPHABET| ==> ALPHABET[i] < ALPHABET[j]
    ensures forall ch :: ch in ALPHABET <==> ('0' <= ch <= '9' || 'A' <= ch <= 'Z' || 'a' <= ch <= 'z')
  {
    AlphabetIsComputed();
    forall ch | '0' <= ch <= '9' || 'A' <= ch <= 'Z' || 'a' <= ch <= 'z' ensures ch in ALPHABET {
      var i := if ch <= '9' then ch as int - '0' as int
               else if ch <= 'Z' then ch as int - 'A' as int + 10
               else ch as int - 'a' as int + 36;
      assert ALPHABET[i] == ch;
    }
  }

  /** Every character of a valid code is a digit or an ASCII letter. */
  lemma CodeIsAlphanumeric(code: string)
    requires IsCode(code)
    ensures forall i :: 0 <= i < |code| ==>
              '0' <= code[i] <= '9' || 'A' <= code[i] <= 'Z' || 'a' <= code[i] <= 'z'
  {
    AlphabetSpec();
  }
}
