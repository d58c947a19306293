/**
 * The validator's rules written out once more on characters and literal paths, without any definition of the model:
 * the yardstick for the modules that follow the code.
 */
module Specification {
  import opened Lines
  import opened Tables
  import opened Wrappers

  // ---------- Header lines ----------

  /** The characters that `\s` stands for, by code point. */
  predicate WhiteSpace(c: char) {
    var n := c as int;
    || 9 <= n <= 13 || n == 32 || n == 160 || n == 5760 || 8192 <= n <= 8202
    || n == 8232 || n == 8233 || n == 8239 || n == 8287 || n == 12288 || n == 65279
  }

  predicate HeaderWithTagAt(line: string, k: int) {
    && 1 <= k && k + 22 <= |line|
    && line[0] == '#'
    && line[k..k + 22] == "x-keystone-state-hash:"
    && forall i :: 1 <= i < k ==> WhiteSpace(line[i])
  }

  ghost predicate HeaderLine(line: string) {
    exists k :: HeaderWithTagAt(line, k)
  }

  /** What is hashed: the text, without its first line if that may be and is a header. */
  ghost function Content(mayStrip: bool, text: string): string {
    if mayStrip && HeaderLine(FirstLine(text)) then AfterFirstLine(text) else text
  }

  // ---------- Paths ----------

  /** The nine documents that are always covered, in chain order but for the rules and agents between. */
  const NINE := [
    "contract.yaml",
    ".opencode/context/requirements/系统架构设计文档（SAD）.md",
    ".opencode/context/requirements/接口设计规范文档.md",
    ".opencode/context/requirements/数据架构设计文档.md",
    ".opencode/context/requirements/安全架构设计文档.md",
    ".opencode/context/requirements/测试策略与计划.md",
    ".opencode/context/requirements/运维与部署设计文档.md",
    "AGENTS.md",
    "PROJECT_REFERENCE.md"
  ]

  /** A name that the chain takes from a listing. */
  predicate DocName(name: string) {
    |name| >= 3 && name[|name| - 3] == '.' && name[|name| - 2] == 'm' && name[|name| - 1] == 'd'
  }

  /** A rule or agent document. */
  ghost predicate RuleOrAgent(path: string) {
    exists name :: DocName(name) && '/' !in name &&
      (path == ".opencode/rules/" + name || path == ".opencode/agents/" + name)
  }

  ghost predicate Covered(files: map<string, string>, path: string) {
    path in NINE || (RuleOrAgent(path) && path in files)
  }

  /** The names in a directory; none when it does not exist. */
  function Names(listing: Option<seq<string>>): seq<string> {
    match listing
    case None => []
    case Some(names) => names
  }

  /** What a directory holds: no name twice, no slash in a name, and a document is listed exactly when it exists. */
  ghost predicate Lists(files: map<string, string>, dir: string, names: seq<string>) {
    && (forall i, j :: 0 <= i < j < |names| ==> names[i] != names[j])
    && (forall name :: name in names ==> '/' !in name)
    && (forall name :: DocName(name) && '/' !in name ==> (dir + name in files <==> name in names))
  }

  /** A base name that ends, in any case, in `.yaml` or `.yml` after at least one more character. */
  predicate YamlName(name: string) {
    var n := |name|;
    || (n > 5 && name[n - 5] == '.' && name[n - 4] in "yY" && name[n - 3] in "aA" && name[n - 2] in "mM"
        && name[n - 1] in "lL")
    || (n > 4 && name[n - 4] == '.' && name[n - 3] in "yY" && name[n - 2] in "mM" && name[n - 1] in "lL")
  }

  /** The base name: after a slash or the start of the path, and up to its end or the slashes there. */
  predicate BaseNameBetween(path: string, start: int, end: int) {
    && 0 <= start <= end <= |path|
    && (start > 0 ==> path[start - 1] == '/')
    && (forall i :: start <= i < end ==> path[i] != '/')
    && (forall i :: end <= i < |path| ==> path[i] == '/')
  }

  ghost predicate YamlPath(path: string) {
    exists start, end :: BaseNameBetween(path, start, end) && YamlName(path[start..end])
  }

  // ---------- Hashes ----------

  /** The hash of a file under the path as written. */
  ghost function HashAs(sha: string -> string, written: string, text: string): string {
    "sha256-" + sha(Content(YamlPath(written), text))
  }

  /** The hash of a covered file: the contract alone may lose a header. */
  ghost function Expected(sha: string -> string, files: map<string, string>, path: string): string {
    if path in files then "sha256-" + sha(Content(path == "contract.yaml", files[path])) else "MISSING"
  }

  // ---------- Stored hashes ----------

  /** The stored hashes are those that the text of the machine file parses to. */
  predicate Stores(json: string -> Option<Option<Table>>, files: map<string, string>, stored: Table) {
    && ".opencode/state/machine.json" in files
    && json(files[".opencode/state/machine.json"]) == Some(Some(stored))
  }

  /** Building the chain throws: a directory in the place of a file, or a file in the place of a directory. */
  predicate Throws(files: map<string, string>, dirs: set<string>) {
    || ".opencode/rules" in files || ".opencode/agents" in files
    || exists p :: p in NINE && p in dirs
  }

  /** A stored entry that does no harm. */
  ghost predicate Harmless(sha: string -> string, files: map<string, string>, e: Entry) {
    && Covered(files, e.path) && e.path in files
    && (e.hash == "" || e.hash == Expected(sha, files, e.path))
  }

  /** The files that make the chain valid against the stored hashes. */
  ghost predicate Valid(sha: string -> string, files: map<string, string>, stored: Table) {
    && (forall p :: p in NINE ==> p in files)
    && (forall e :: e in stored ==> Harmless(sha, files, e))
    && ".opencode/rules" !in files && ".opencode/agents" !in files
  }

  /** The right hash of the contract is among the stored ones. */
  ghost predicate ContractStored(sha: string -> string, files: map<string, string>, stored: Table) {
    Entry("contract.yaml", Expected(sha, files, "contract.yaml")) in stored
  }

  // ---------- The status of a path ----------

  ghost predicate IsOK(sha: string -> string, files: map<string, string>, stored: Table, path: string) {
    Covered(files, path) && path in files && Entry(path, Expected(sha, files, path)) in stored
  }

  ghost predicate IsMismatch(sha: string -> string, files: map<string, string>, stored: Table, path: string) {
    && Covered(files, path) && path in files
    && exists e :: e in stored && e.path == path && e.hash != "" && e.hash != Expected(sha, files, path)
  }

  ghost predicate IsUntracked(files: map<string, string>, stored: Table, path: string) {
    Covered(files, path) && path in files && forall e :: e in stored && e.path == path ==> e.hash == ""
  }

  predicate IsMissing(files: map<string, string>, path: string) {
    path in NINE && path !in files
  }

  ghost predicate IsStale(files: map<string, string>, stored: Table, path: string) {
    !Covered(files, path) && exists e :: e in stored && e.path == path
  }

  // ---------- Command lines ----------

  predicate HashCommand(args: seq<string>) {
    |args| >= 2 && args[0] == "--hash" && args[1] != ""
  }

  predicate ChainCommand(args: seq<string>) {
    |args| >= 1 && (args[0] == "--bundle" || args[0] == "--ci" || args[0] == "--audit")
  }

  predicate PreCommitCommand(args: seq<string>) {
    |args| >= 1 && args[0] == "--pre-commit"
  }
}
