/** Canonical content and hash of one file, as the validator and as the baseline tool compute them. */
module FileHash {
  import opened Header
  import opened Lines
  import opened Resolution

  /** A file store: project-relative path to text. */
  type Files = map<string, string>

  /** SHA-256 of a text in hexadecimal; nothing is assumed about it except where a lemma says so. */
  type Digest = string -> string

  const MISSING := "MISSING"

  // ---------- Which files may carry a header ----------

  function LastIndexOf(s: string, c: char): (k: int)
    ensures -1 <= k < |s|
    ensures k >= 0 ==> s[k] == c
    ensures forall i :: k < i < |s| ==> s[i] != c
  {
    if s == "" then -1
    else if s[|s| - 1] == c then |s| - 1
    else LastIndexOf(s[..|s| - 1], c)
  }

  function TrimSlashes(path: string): string {
    if path != "" && path[|path| - 1] == '/' then TrimSlashes(path[..|path| - 1]) else path
  }

  function BaseName(path: string): string {
    var p := TrimSlashes(path);
    p[LastIndexOf(p, '/') + 1..]
  }

  /** POSIX `path.extname`: from the last dot of the base name on, unless that dot opens the name. */
  function Extension(path: string): string {
    var base := BaseName(path);
    var dot := LastIndexOf(base, '.');
    if dot <= 0 || base == ".." then "" else base[dot..]
  }

  /** Lower case on A to Z: no other character has a lower case that occurs in the two extensions. */
  function ToLower(s: string): string {
    seq(|s|, i requires 0 <= i < |s| =>
      if 'A' <= s[i] <= 'Z' then ((s[i] as int) + 32) as char else s[i])
  }

  predicate IsYaml(path: string) {
    var ext := ToLower(Extension(path));
    ext == ".yaml" || ext == ".yml"
  }

  predicate EndsWith(s: string, suffix: string) {
    |suffix| <= |s| && s[|s| - |suffix|..] == suffix
  }

  /** The base name starts after the last slash when the path does not end in one. */
  lemma BaseNameAt(path: string, start: nat)
    requires start < |path| && (start > 0 ==> path[start - 1] == '/')
    requires forall i :: start <= i < |path| ==> path[i] != '/'
    ensures BaseName(path) == path[start..]
  {
    assert TrimSlashes(path) == path;
    assert LastIndexOf(path, '/') == start - 1;
  }

  lemma LastDotOfSuffix(path: string, start: nat, dot: nat)
    requires start <= dot < |path| && path[dot] == '.'
    requires forall i :: dot < i < |path| ==> path[i] != '.'
    ensures LastIndexOf(path[start..], '.') == dot - start
  {
    var base := path[start..];
    assert base[dot - start] == '.';
    assert forall i :: 0 <= i < |base| ==> base[i] == path[start + i];
  }

  lemma LowerCaseSuffix(s: string, k: nat)
    requires k <= |s|
    ensures EndsWith(ToLower(s), ToLower(s[k..]))
  {
    assert ToLower(s)[k..] == ToLower(s[k..]);
  }

  lemma ExtensionIsSuffix(path: string)
    requires Extension(path) != ""
    ensures |Extension(path)| < |BaseName(path)| && EndsWith(ToLower(BaseName(path)), ToLower(Extension(path)))
  {
    LowerCaseSuffix(BaseName(path), LastIndexOf(BaseName(path), '.'));
  }

  lemma SuffixIsExtension(path: string, suffix: string)
    requires |suffix| > 2 && suffix[0] == '.' && forall i :: 0 < i < |suffix| ==> suffix[i] != '.'
    requires |suffix| < |BaseName(path)| && EndsWith(ToLower(BaseName(path)), suffix)
    ensures ToLower(Extension(path)) == suffix
  {
    var base := BaseName(path);
    var name, start := ToLower(base), |base| - |suffix|;
    forall i | 0 <= i < |suffix| ensures name[start + i] == suffix[i] {
      assert name[start..][i] == name[start + i];
    }
    assert name[start + 0] == '.' && name[start + 1] != '.';
    assert base[start] == '.';
    forall i | start < i < |base| ensures base[i] != '.' {
      assert name[i] == suffix[i - start];
    }
    assert LastIndexOf(base, '.') == start;
    assert ToLower(base[start..]) == name[start..];
  }

  /** A path has the extension exactly when its base name ends in it after something else, in any case. */
  lemma ExtensionIs(path: string, suffix: string)
    requires |suffix| > 2 && suffix[0] == '.' && forall i :: 0 < i < |suffix| ==> suffix[i] != '.'
    ensures ToLower(Extension(path)) == suffix <==>
            |suffix| < |BaseName(path)| && EndsWith(ToLower(BaseName(path)), suffix)
  {
    if ToLower(Extension(path)) == suffix {
      ExtensionIsSuffix(path);
    }
    if |suffix| < |BaseName(path)| && EndsWith(ToLower(BaseName(path)), suffix) {
      SuffixIsExtension(path, suffix);
    }
  }

  lemma YamlIsASuffixTest(path: string)
    ensures IsYaml(path) <==>
            || (5 < |BaseName(path)| && EndsWith(ToLower(BaseName(path)), ".yaml"))
            || (4 < |BaseName(path)| && EndsWith(ToLower(BaseName(path)), ".yml"))
  {
    ExtensionIs(path, ".yaml");
    ExtensionIs(path, ".yml");
  }

  /** A path that ends in `.md` is never YAML, even when its whole base name is `.md`. */
  lemma MarkdownIsNotYaml(path: string)
    requires EndsWith(path, ".md")
    ensures !IsYaml(path)
  {
    var n := |path| - 3;
    forall i | 0 <= i < 3 ensures path[n + i] == ".md"[i] {
      assert path[n..][i] == path[n + i];
    }
    assert path[n + 0] == '.' && path[n + 1] == 'm' && path[n + 2] == 'd';
    assert TrimSlashes(path) == path;
    var slash := LastIndexOf(path, '/');
    assert slash < n;
    LastDotOfSuffix(path, slash + 1, n);
    assert |Extension(path)| <= 3;
    assert |ToLower(Extension(path))| <= 3;
  }

  // ---------- Canonical content ----------

  /** Split, drop the header line when the file may carry one and does, and join. */
  function CanonicalText(mayStrip: bool, text: string): string {
    var lines := Split('\n', text);
    var contentLines := if mayStrip && IsHeader(lines[0]) then lines[1..] else lines;
    Join('\n', contentLines)
  }

  predicate HasHeader(text: string) {
    IsHeader(FirstLine(text))
  }

  /** The line-array computation refines its reading on plain text, for every text. */
  lemma CanonicalTextIs(mayStrip: bool, text: string)
    ensures CanonicalText(mayStrip, text) ==
            if mayStrip && HasHeader(text) then AfterFirstLine(text) else text
  {
    DropFirstLine(text);
    JoinSplit('\n', text);
  }

  /** Stripping a header always shortens the text. */
  lemma StrippingShortens(text: string)
    requires HasHeader(text)
    ensures |CanonicalText(true, text)| < |text|
  {
    CanonicalTextIs(true, text);
  }

  /** Only one header line goes: canonicalising twice changes nothing unless two header lines were stacked. */
  lemma IdempotentUnlessStacked(text: string)
    ensures CanonicalText(true, CanonicalText(true, text)) == CanonicalText(true, text) <==>
            !(HasHeader(text) && HasHeader(AfterFirstLine(text)))
  {
    CanonicalTextIs(true, text);
    CanonicalTextIs(true, CanonicalText(true, text));
    if HasHeader(text) && HasHeader(AfterFirstLine(text)) {
      StrippingShortens(AfterFirstLine(text));
    }
  }

  /** Any header line may be put on top of any body: the canonical text is the body. */
  lemma HeaderIsInvisible(header: string, body: string)
    requires IsLine(header) && IsHeader(header)
    ensures CanonicalText(true, header + "\n" + body) == body
    ensures CanonicalText(true, header) == ""
  {
    FirstLineOfPrefixed(header, body);
    CanonicalTextIs(true, header + "\n" + body);
    SplitSinglePiece('\n', header);
  }

  // ---------- Hashes ----------

  function HashOfText(sha: Digest, text: string): string {
    "sha256-" + sha(text)
  }

  /** Who hashes decides which files lose their header: the validator strips YAML files, the bundler every file. */
  datatype Hasher = Validator | Bundler

  function TextBy(hasher: Hasher, files: Files, path: string): string
    requires path in files
  {
    CanonicalText(hasher == Bundler || IsYaml(path), files[path])
  }

  function HashBy(hasher: Hasher, sha: Digest, files: Files, path: string): string {
    if path !in files then MISSING else HashOfText(sha, TextBy(hasher, files, path))
  }

  /** The validator's hash of a path that stands for itself, as every covered path does. */
  function ComputeFileHash(sha: Digest, files: Files, path: string): string {
    HashBy(Validator, sha, files, path)
  }

  /**
   * `computeFileHash` on a path as written: the file is looked up by the resolved path, and whether it is YAML is
   * read off the written one.
   */
  function HashWritten(sha: Digest, root: seq<string>, files: Files, path: string): string {
    var place := Locate(root, path);
    if place !in files then MISSING
    else HashOfText(sha, CanonicalText(IsYaml(path), files[place]))
  }

  lemma HashOfTextInjective(sha: Digest, a: string, b: string)
    ensures HashOfText(sha, a) == HashOfText(sha, b) <==> sha(a) == sha(b)
  {
    assert HashOfText(sha, a)[7..] == sha(a);
    assert HashOfText(sha, b)[7..] == sha(b);
  }

  /** The sentinel is sound: a hash reads MISSING, or is empty, exactly as the file is absent, or never. */
  lemma MissingIffAbsent(hasher: Hasher, sha: Digest, files: Files, path: string)
    ensures HashBy(hasher, sha, files, path) == MISSING <==> path !in files
    ensures HashBy(hasher, sha, files, path) != ""
  {
    if path in files {
      assert HashBy(hasher, sha, files, path)[0] == 's' && MISSING[0] == 'M';
    }
  }

  predicate IsHex(s: string) {
    forall c :: c in s ==> '0' <= c <= '9' || 'a' <= c <= 'f'
  }

  /** SHA-256 in hexadecimal: 64 digits. */
  ghost predicate HexDigest(sha: Digest) {
    forall text :: |sha(text)| == 64 && IsHex(sha(text))
  }

  /** `sha256-` and 64 hexadecimal digits. */
  predicate IsHashForm(hash: string) {
    |hash| == 71 && hash[..7] == "sha256-" && IsHex(hash[7..])
  }

  lemma HashHasForm(digest: string)
    requires |digest| == 64 && IsHex(digest)
    ensures IsHashForm("sha256-" + digest)
  {
    var hash := "sha256-" + digest;
    assert |hash| == 71;
    assert hash[..7] == "sha256-";
    assert hash[7..] == digest;
  }

  lemma SentinelHasNoForm()
    ensures !IsHashForm(MISSING)
  {
    assert |MISSING| == 7;
  }

  /** With SHA-256 behind it, a hash either reads MISSING or has the documented form, never both. */
  lemma HashFormOrMissing(hasher: Hasher, sha: Digest, files: Files, path: string)
    requires HexDigest(sha)
    ensures IsHashForm(HashBy(hasher, sha, files, path)) <==> path in files
  {
    if path in files {
      HashHasForm(sha(TextBy(hasher, files, path)));
    } else {
      SentinelHasNoForm();
    }
  }

  /** The text with its own hash recorded in the header line, replacing the header it had. */
  function Stamp(sha: Digest, text: string): string {
    var body := CanonicalText(true, text);
    HeaderFor(HashOfText(sha, body)) + "\n" + body
  }

  /** A file carries its own hash: the stamped text hashes to the value its header records. */
  lemma StampCertifiesItself(sha: Digest, text: string)
    requires HexDigest(sha)
    ensures var hash := HashOfText(sha, CanonicalText(true, text));
            && FirstLine(Stamp(sha, text)) == HeaderFor(hash)
            && HashOfText(sha, CanonicalText(true, Stamp(sha, text))) == hash
  {
    var body := CanonicalText(true, text);
    var header := HeaderFor(HashOfText(sha, body));
    assert |sha(body)| == 64;
    assert IsLine(header);
    HeaderForIsHeader(HashOfText(sha, body));
    HeaderIsInvisible(header, body);
    FirstLineOfPrefixed(header, body);
  }

  /** Two stacked header lines: stripping takes one at a time. */
  lemma StackedHeadersExample()
    ensures var text := HeaderFor("a") + "\n" + HeaderFor("b");
            && CanonicalText(true, text) == HeaderFor("b")
            && CanonicalText(true, CanonicalText(true, text)) == ""
            && CanonicalText(true, text) != CanonicalText(true, CanonicalText(true, text))
  {
    HeaderForIsHeader("a");
    HeaderForIsHeader("b");
    HeaderIsInvisible(HeaderFor("a"), HeaderFor("b"));
    HeaderIsInvisible(HeaderFor("b"), "");
  }
}
