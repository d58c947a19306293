/** The pattern `/^#\s*x-keystone-state-hash:/` tested against the first line of a file. */
module Header {

  const TAG := "x-keystone-state-hash:"

  /** What `\s` matches in an ECMAScript pattern: white space, line terminators and U+FEFF. */
  predicate IsSpace(c: char) {
    c in {'\t', '\n', '\U{000B}', '\U{000C}', '\r', ' ', '\U{00A0}', '\U{1680}', '\U{2028}', '\U{2029}',
          '\U{202F}', '\U{205F}', '\U{3000}', '\U{FEFF}'}
    || '\U{2000}' <= c <= '\U{200A}'
  }

  predicate StartsWith(s: string, prefix: string) {
    |prefix| <= |s| && s[..|prefix|] == prefix
  }

  /** The pattern read declaratively: `#`, a run of white space up to position k, then the tag. */
  predicate MatchesAt(line: string, k: nat) {
    && 1 <= k <= |line|
    && line[0] == '#'
    && (forall i :: 1 <= i < k ==> IsSpace(line[i]))
    && StartsWith(line[k..], TAG)
  }

  /** The first position from i on that does not hold white space. */
  function SkipSpaces(line: string, i: nat): (k: nat)
    requires i <= |line|
    ensures i <= k <= |line|
    ensures forall j :: i <= j < k ==> IsSpace(line[j])
    ensures k < |line| ==> !IsSpace(line[k])
    decreases |line| - i
  {
    if i < |line| && IsSpace(line[i]) then SkipSpaces(line, i + 1) else i
  }

  /** The pattern as one greedy scan from left to right, without backtracking. */
  predicate IsHeader(line: string) {
    && line != ""
    && line[0] == '#'
    && StartsWith(line[SkipSpaces(line, 1)..], TAG)
  }

  lemma TagIsNotSpace(line: string, k: nat)
    requires MatchesAt(line, k)
    ensures k < |line| && !IsSpace(line[k])
  {
    assert line[k] == line[k..][0] == line[k..][..|TAG|][0] == 'x';
  }

  /** A line has at most one decomposition into `#`, white space, tag and rest. */
  lemma DecompositionUnique(line: string, j: nat, k: nat)
    requires MatchesAt(line, j) && MatchesAt(line, k)
    ensures j == k
  {
    TagIsNotSpace(line, j);
    TagIsNotSpace(line, k);
  }

  /** The greedy scan accepts exactly the lines that have a decomposition. */
  lemma RecogniserCorrect(line: string)
    ensures IsHeader(line) <==> exists k :: MatchesAt(line, k)
  {
    if IsHeader(line) {
      assert MatchesAt(line, SkipSpaces(line, 1));
    }
    if k :| MatchesAt(line, k) {
      TagIsNotSpace(line, k);
      assert SkipSpaces(line, 1) == k;
    }
  }

  /** The header that records a hash: what `contract.yaml` carries on its first line. */
  function HeaderFor(hash: string): string {
    "# " + TAG + " " + hash
  }

  lemma HeaderForIsHeader(hash: string)
    ensures IsHeader(HeaderFor(hash))
  {
    var line := HeaderFor(hash);
    assert line[2..] == TAG + (" " + hash);
    assert line[1] == ' ';
    assert MatchesAt(line, 2);
    RecogniserCorrect(line);
  }
}
