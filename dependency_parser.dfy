/** The manifest parsers of `DependencyParser`: ten extraction rules, one per
    kind of dependency file, and the aggregation that runs every rule on every
    candidate path and collects a duplicate-free list of names. Each regular
    expression of the program is written out as a scanner over the line. */
module DependencyParser {
  import opened Wrappers
  import opened Seqs
  import opened Text

  // ---------------------------------------------------------------------
  // Scanning helpers

  /** The end of the longest run of characters satisfying `p` that starts
      at `i`: what a greedy `[...]*` consumes. */
  function SpanEnd(s: string, i: nat, p: char -> bool): (j: nat)
    requires i <= |s|
    ensures i <= j <= |s|
    ensures forall k | i <= k < j :: p(s[k])
    ensures j == |s| || !p(s[j])
    decreases |s| - i
  {
    if i == |s| || !p(s[i]) then i else SpanEnd(s, i + 1, p)
  }

  /** A run that cannot be extended is the one `SpanEnd` finds. */
  lemma {:induction false} SpanEndIs(s: string, i: nat, p: char -> bool, j: nat)
    requires i <= j <= |s|
    requires forall k | i <= k < j :: p(s[k])
    requires j == |s| || !p(s[j])
    ensures SpanEnd(s, i, p) == j
    decreases |s| - i
  {
    if i < j {
      SpanEndIs(s, i + 1, p, j);
    }
  }

  /** `w` occurs in `s` at position `q`. */
  predicate StartsAt(s: string, q: nat, w: string) {
    q + |w| <= |s| && s[q..q + |w|] == w
  }

  /** An occurrence of `a + b` is an occurrence of `a` followed by one of
      `b`. */
  lemma StartsAtConcat(s: string, p: nat, a: string, b: string)
    requires StartsAt(s, p, a + b)
    ensures StartsAt(s, p, a) && StartsAt(s, p + |a|, b)
  {
    assert s[p..p + |a|] == s[p..p + |a + b|][..|a|];
    assert s[p + |a|..p + |a + b|] == s[p..p + |a + b|][|a|..];
  }

  /** The characters of an occurrence. */
  lemma StartsAtChars(s: string, p: nat, w: string)
    requires StartsAt(s, p, w)
    ensures forall i | 0 <= i < |w| :: s[p + i] == w[i]
  {
    forall i | 0 <= i < |w| ensures s[p + i] == w[i] {
      assert s[p..p + |w|][i] == s[p + i];
    }
  }

  /** The first position from `q` to `n` at which `f` finds something, and
      what it finds there: how an unanchored `exec` picks its match. */
  function Leftmost<T>(f: nat -> Option<T>, q: nat, n: nat): Option<T>
    requires q <= n
    decreases n - q
  {
    if f(q).Some? then f(q) else if q == n then None else Leftmost(f, q + 1, n)
  }

  /** What the leftmost match finds, `f` finds at a position with no
      match before it. */
  lemma {:induction false} LeftmostFound<T>(f: nat -> Option<T>, q: nat, n: nat) returns (p: nat)
    requires q <= n && Leftmost(f, q, n).Some?
    ensures q <= p <= n && f(p) == Leftmost(f, q, n)
    ensures forall r | q <= r < p :: f(r) == None
    decreases n - q
  {
    if f(q).Some? {
      p := q;
    } else {
      p := LeftmostFound(f, q + 1, n);
    }
  }

  /** A match with none before it is the leftmost one. */
  lemma {:induction false} LeftmostAt<T>(f: nat -> Option<T>, q: nat, p: nat, n: nat)
    requires q <= p <= n && f(p).Some?
    requires forall r | q <= r < p :: f(r) == None
    ensures Leftmost(f, q, n) == f(p)
    decreases p - q
  {
    if q < p {
      LeftmostAt(f, q + 1, p, n);
    }
  }

  /** The leftmost match finds nothing only when no position matches. */
  lemma {:induction false} LeftmostNone<T>(f: nat -> Option<T>, q: nat, n: nat)
    requires q <= n && Leftmost(f, q, n) == None
    ensures forall p | q <= p <= n :: f(p) == None
    decreases n - q
  {
    if q < n {
      LeftmostNone(f, q + 1, n);
    }
  }

  /** Each line of a file, as `content.split("\n")` gives them. */
  function Lines(content: string): seq<string> {
    Split(content, '\n')
  }

  /** `names.filter(Boolean)`: drops the empty strings. */
  function NonEmpty(names: seq<string>): (kept: seq<string>)
    ensures forall n | n in kept :: n != "" && n in names
    ensures forall n | n in names && n != "" :: n in kept
    ensures |kept| <= |names|
  {
    if names == [] then []
    else (if names[0] == "" then [] else [names[0]]) + NonEmpty(names[1..])
  }

  // ---------------------------------------------------------------------
  // requirements.txt

  predicate IsRequirementOperator(c: char) {
    c == '=' || c == '<' || c == '>' || c == '~' || c == '!'
  }

  predicate NotRequirementOperator(c: char) { !IsRequirementOperator(c) }

  /** The name a `requirements.txt` line declares: the trimmed line is
      skipped when blank or a `#` comment, otherwise the name is its trimmed
      text before the first of `= < > ~ !`, and an empty name is dropped. */
  function RequirementName(line: string): (name: Option<string>)
    ensures name.Some? <==>
      Trim(line) != "" && Trim(line)[0] != '#' && !IsRequirementOperator(Trim(line)[0])
    ensures name.Some? ==> IsRequirement(name.value)
  {
    var t := Trim(line);
    if t == "" || t[0] == '#' then None
    else
      var before := t[..SpanEnd(t, 0, NotRequirementOperator)];
      BeforeOperator(t, before);
      var name := Trim(before);
      if name == "" then None else Some(name)
  }

  /** A requirement name: non-empty, without surrounding whitespace and
      without version operators. */
  predicate IsRequirement(name: string) {
    name != "" && !IsSpace(name[0]) && !IsSpace(name[|name| - 1])
    && forall k | 0 <= k < |name| :: !IsRequirementOperator(name[k])
  }

  /** What the split on the operators keeps of a trimmed line. */
  lemma BeforeOperator(t: string, before: string)
    requires t != "" && !IsSpace(t[0])
    requires before == t[..SpanEnd(t, 0, NotRequirementOperator)]
    ensures Trim(before) != "" <==> !IsRequirementOperator(t[0])
    ensures Trim(before) != "" ==> IsRequirement(Trim(before))
  {
    var n := SpanEnd(t, 0, NotRequirementOperator);
    assert n == 0 <==> IsRequirementOperator(t[0]);
    assert before != "" ==> before[0] == t[0];
    TrimStartKeeps(before);
    var name := Trim(before);
    forall k | 0 <= k < |name| ensures !IsRequirementOperator(name[k]) {
      assert name[k] in name;
      var i :| 0 <= i < |before| && before[i] == name[k];
      assert before[i] == t[i] && 0 <= i < n;
    }
  }

  /** Trimming a string that starts with a non-space character leaves it
      non-empty, and keeps only characters of the string. */
  lemma TrimStartKeeps(s: string)
    ensures s != "" && !IsSpace(s[0]) ==> Trim(s) != ""
    ensures forall c | c in Trim(s) :: c in s
  {
    forall c | c in Trim(s) ensures c in s {
      TrimIn(s, c);
    }
  }

  /** A line whose trimmed text is a name followed by nothing or by a
      version operator declares exactly that name: `django==3.2.0` gives
      `django`, `requests` gives `requests`. */
  lemma RequirementDeclared(line: string, name: string, rest: string)
    requires IsRequirement(name) && name[0] != '#'
    requires rest == "" || IsRequirementOperator(rest[0])
    requires Trim(line) == name + rest
    ensures RequirementName(line) == Some(name)
  {
    var t := Trim(line);
    assert t[0] == name[0];
    assert t[..|name|] == name;
    assert forall k | 0 <= k < |name| :: NotRequirementOperator(t[k]);
    assert rest != "" ==> t[|name|] == rest[0];
    SpanEndIs(t, 0, NotRequirementOperator, |name|);
    assert TrimStart(name) == name;
    assert TrimEnd(name) == name;
  }

  /** The names `parseRequirementsTxt` lists, with the shape each one has. */
  lemma RequirementNamesShaped(lines: seq<string>)
    ensures forall n | n in Collect(lines, RequirementName) :: IsRequirement(n)
  {
    forall n | n in Collect(lines, RequirementName) ensures IsRequirement(n) {
      CollectMembers(lines, RequirementName, n);
    }
  }

  /** `parseRequirementsTxt`: one name per line that declares one, in line
      order; no name is empty or contains a version operator. */
  function ParseRequirementsTxt(content: string): (names: seq<string>)
    ensures |names| <= |Lines(content)|
    ensures forall n | n in names :: IsRequirement(n)
  {
    RequirementNamesShaped(Lines(content));
    Collect(Lines(content), RequirementName)
  }

  /** A name is listed exactly when some line of the file declares it. */
  lemma RequirementsMeans(content: string, n: string)
    ensures n in ParseRequirementsTxt(content) <==>
      exists i | 0 <= i < |Lines(content)| :: RequirementName(Lines(content)[i]) == Some(n)
  {
    CollectMembers(Lines(content), RequirementName, n);
  }

  // ---------------------------------------------------------------------
  // Gemfile

  predicate IsQuote(c: char) { c == '\'' || c == '"' }

  predicate NotQuote(c: char) { !IsQuote(c) }

  /** `/^gem\s+['"]/`: the trimmed line starts with `gem`, whitespace and a
      quote. */
  predicate IsGemLine(t: string) {
    StartsAt(t, 0, "gem")
    && var k := SpanEnd(t, 3, IsSpace);
    3 < k < |t| && IsQuote(t[k])
  }

  /** `/gem\s+['"]([^'"]+)['"]/` matched at position `q`: the quoted text. */
  function GemAt(t: string, q: nat): (arg: Option<string>)
    requires q <= |t|
    ensures arg.Some? ==> arg.value != "" && forall k | 0 <= k < |arg.value| :: !IsQuote(arg.value[k])
  {
    if !StartsAt(t, q, "gem") then None
    else
      var k := SpanEnd(t, q + 3, IsSpace);
      if k == q + 3 || k == |t| || !IsQuote(t[k]) then None
      else
        var e := SpanEnd(t, k + 1, NotQuote);
        if e == k + 1 || e == |t| then None else Some(t[k + 1..e])
  }

  /** The leftmost match at or after `q`, as `exec` finds it. */
  function GemSearch(t: string, q: nat): (arg: Option<string>)
    requires q <= |t|
    ensures arg.Some? ==> arg.value != "" && forall k | 0 <= k < |arg.value| :: !IsQuote(arg.value[k])
    decreases |t| - q
  {
    if GemAt(t, q).Some? then GemAt(t, q)
    else if q == |t| then None
    else GemSearch(t, q + 1)
  }

  /** The gem a `Gemfile` line declares: only a trimmed line starting with
      `gem`, whitespace and a quote declares one, and it is the first quoted
      text after a `gem` of that line. */
  function GemName(line: string): (name: Option<string>)
    ensures name.Some? ==> IsGemLine(Trim(line))
    ensures name.Some? ==> name.value != "" && forall k | 0 <= k < |name.value| :: !IsQuote(name.value[k])
  {
    var t := Trim(line);
    if IsGemLine(t) then GemSearch(t, 0) else None
  }

  /** A line `gem 'name', ...` declares `name`. */
  lemma GemDeclared(line: string, gap: string, open: char, name: string, close: char, rest: string)
    requires gap != "" && forall k | 0 <= k < |gap| :: IsSpace(gap[k])
    requires IsQuote(open) && IsQuote(close)
    requires name != "" && forall k | 0 <= k < |name| :: !IsQuote(name[k])
    requires Trim(line) == "gem" + gap + [open] + name + [close] + rest
    ensures GemName(line) == Some(name)
  {
    var t := Trim(line);
    GemAtLayout(t, gap, open, name, close, rest);
    assert GemSearch(t, 0) == Some(name);
  }

  /** The match at the start of a `gem 'name'` line. */
  lemma GemAtLayout(t: string, gap: string, open: char, name: string, close: char, rest: string)
    requires gap != "" && forall k | 0 <= k < |gap| :: IsSpace(gap[k])
    requires IsQuote(open) && IsQuote(close)
    requires name != "" && forall k | 0 <= k < |name| :: !IsQuote(name[k])
    requires t == "gem" + gap + [open] + name + [close] + rest
    ensures IsGemLine(t) && GemAt(t, 0) == Some(name)
  {
    var k := 3 + |gap|;
    var e := k + 1 + |name|;
    GemLayout(t, gap, open, name, close, rest);
    SpanEndIs(t, 3, IsSpace, k);
    SpanEndIs(t, k + 1, NotQuote, e);
  }

  /** Where the parts of a `gem 'name'` line sit. */
  lemma GemLayout(t: string, gap: string, open: char, name: string, close: char, rest: string)
    requires t == "gem" + gap + [open] + name + [close] + rest
    ensures |t| == 3 + |gap| + 1 + |name| + 1 + |rest|
    ensures StartsAt(t, 0, "gem")
    ensures forall i | 3 <= i < 3 + |gap| :: t[i] == gap[i - 3]
    ensures t[3 + |gap|] == open
    ensures forall i | 3 + |gap| + 1 <= i < 3 + |gap| + 1 + |name| :: t[i] == name[i - 3 - |gap| - 1]
    ensures t[3 + |gap| + 1 + |name|] == close
    ensures t[3 + |gap| + 1..3 + |gap| + 1 + |name|] == name
  {
    var k := 3 + |gap|;
    assert t == ("gem" + gap) + ([open] + name + [close] + rest);
    assert t[..3] == "gem";
    assert forall i | k + 1 <= i < k + 1 + |name| :: t[i] == name[i - k - 1];
  }

  /** `parseGemfile`: one name per declaring line, in line order; no name is
      empty or holds a quote. */
  function ParseGemfile(content: string): (names: seq<string>)
    ensures |names| <= |Lines(content)|
    ensures forall n | n in names :: n != "" && forall k | 0 <= k < |n| :: !IsQuote(n[k])
  {
    GemNamesShaped(Lines(content));
    Collect(Lines(content), GemName)
  }

  /** The names the Gemfile rule lists, with the shape each one has. */
  lemma GemNamesShaped(lines: seq<string>)
    ensures forall n | n in Collect(lines, GemName) :: n != "" && forall k | 0 <= k < |n| :: !IsQuote(n[k])
  {
    forall n | n in Collect(lines, GemName) ensures n != "" && forall k | 0 <= k < |n| :: !IsQuote(n[k]) {
      CollectMembers(lines, GemName, n);
    }
  }

  // ---------------------------------------------------------------------
  // go.mod

  predicate IsModulePathChar(c: char) { IsAlnum(c) || c == '.' || c == '-' || c == '/' }

  predicate IsModulePath(s: string) {
    s != "" && forall k | 0 <= k < |s| :: IsModulePathChar(s[k])
  }

  /** `/^\s*([a-zA-Z0-9.\-/]+)\s+v/`: the path at the head of a line that
      continues with whitespace and a `v`. */
  function ModulePathOf(line: string): (path: Option<string>)
    ensures path.Some? ==> IsModulePath(path.value)
  {
    var i := SpanEnd(line, 0, IsSpace);
    var j := SpanEnd(line, i, IsModulePathChar);
    var k := SpanEnd(line, j, IsSpace);
    if i < j < k < |line| && line[k] == 'v' then Some(line[i..j]) else None
  }

  /** `parts.at(-1)` of `path.split("/")`. */
  function LastSegment(path: string): (segment: string)
    ensures '/' !in segment
  {
    var parts := Split(path, '/');
    parts[|parts| - 1]
  }

  /** What one `go.mod` line contributes before the final filter. */
  function ModuleSegment(line: string): Option<string> {
    match ModulePathOf(line)
    case Some(path) => Some(LastSegment(path))
    case None => None
  }

  /** `parseGoMod`, as a value: the last `/`-segment of the path of each
      `<path> v...` line, empty segments dropped. */
  function GoModDeps(content: string): (deps: seq<string>)
    ensures forall d | d in deps :: d != "" && '/' !in d
  {
    var segments := Collect(Lines(content), ModuleSegment);
    forall d | d in segments ensures '/' !in d {
      CollectMembers(Lines(content), ModuleSegment, d);
    }
    NonEmpty(segments)
  }

  /** The loop of `parseGoMod`. */
  method ParseGoMod(content: string) returns (deps: seq<string>)
    ensures deps == GoModDeps(content)
  {
    var lines := Lines(content);
    var found: seq<string> := [];
    for i := 0 to |lines|
      invariant found == Collect(lines[..i], ModuleSegment)
    {
      assert lines[..i + 1][..i] == lines[..i];
      match ModulePathOf(lines[i]) {
        case Some(path) => found := found + [LastSegment(path)];
        case None =>
      }
    }
    assert lines[..|lines|] == lines;
    deps := NonEmpty(found);
  }

  lemma ModulePathCharNotSpace(c: char)
    ensures IsModulePathChar(c) ==> !IsSpace(c)
  {
  }

  /** A line `<word> <arg>` is read by its first character after the gap:
      it yields `<word>` when `<arg>` starts with `v`, and nothing otherwise. */
  lemma WordThenArgument(word: string, arg: string)
    requires IsModulePath(word)
    requires arg != "" && !IsSpace(arg[0])
    ensures ModulePathOf(word + " " + arg) == if arg[0] == 'v' then Some(word) else None
  {
    var line := word + " " + arg;
    ModulePathCharNotSpace(word[0]);
    SpanEndIs(line, 0, IsSpace, 0);
    assert forall k | 0 <= k < |word| :: line[k] == word[k];
    SpanEndIs(line, 0, IsModulePathChar, |word|);
    assert line[|word| + 1] == arg[0];
    SpanEndIs(line, |word|, IsSpace, |word| + 1);
    assert line[..|word|] == word;
  }

  /** The last segment of `<prefix>/<name>` is `<name>`. */
  lemma {:induction false} LastSegmentOf(prefix: string, name: string)
    requires '/' !in name
    ensures |Split(prefix + "/" + name, '/')| >= 2
    ensures LastSegment(prefix + "/" + name) == name
    decreases |prefix|
  {
    var s := prefix + "/" + name;
    if prefix == [] {
      assert s == "/" + name && s[1..] == name;
      SplitNone(name, '/');
    } else {
      assert s[0] == prefix[0] && s[1..] == prefix[1..] + "/" + name;
      LastSegmentOf(prefix[1..], name);
    }
  }

  /** A `require` entry `<host>/<...>/<name> v<version>` contributes `<name>`:
      `github.com/gin-gonic/gin v1.9.1` gives `gin`. */
  lemma RequireEntry(prefix: string, name: string, version: string)
    requires IsModulePath(prefix + "/" + name) && '/' !in name
    requires version != "" && version[0] == 'v'
    ensures ModuleSegment(prefix + "/" + name + " " + version) == Some(name)
  {
    WordThenArgument(prefix + "/" + name, version);
    LastSegmentOf(prefix, name);
  }

  /** The `go` directive never contributes: its argument is a version number. */
  lemma GoDirective(line: string, version: string)
    requires line == "go " + version
    requires version != "" && IsDigit(version[0])
    ensures ModuleSegment(line) == None
  {
    assert IsModulePath("go");
    assert line == "go" + " " + version;
    WordThenArgument("go", version);
  }

  /** A `module` directive contributes nothing unless the module path starts
      with `v`, in which case the regular expression takes the keyword for a
      dependency: `module vitess.io/vitess` yields `module`. */
  lemma ModuleDirective(line: string, path: string)
    requires line == "module " + path
    requires path != "" && !IsSpace(path[0])
    ensures ModuleSegment(line) == if path[0] == 'v' then Some("module") else None
  {
    assert IsModulePath("module");
    assert line == "module" + " " + path;
    WordThenArgument("module", path);
    SplitNone("module", '/');
  }

  // ---------------------------------------------------------------------
  // Cargo.toml, pyproject.toml and Pipfile

  predicate IsKeyNameChar(c: char) { IsAlnum(c) || c == '_' || c == '-' }

  /** `/^([a-zA-Z0-9_-]+)\s*=/`: the key of a `key = value` line. */
  function TableKey(line: string): (key: Option<string>)
    ensures key.Some? ==> key.value != "" && forall k | 0 <= k < |key.value| :: IsKeyNameChar(key.value[k])
    ensures key.Some? ==> line != "" && line[0] != '['
  {
    var j := SpanEnd(line, 0, IsKeyNameChar);
    var k := SpanEnd(line, j, IsSpace);
    if 0 < j && k < |line| && line[k] == '=' then Some(line[..j]) else None
  }

  /** `key = value`, with any white space before the `=`, has key `key`. */
  lemma TableKeyOf(line: string, key: string, gap: string, rest: string)
    requires key != "" && forall k | 0 <= k < |key| :: IsKeyNameChar(key[k])
    requires forall k | 0 <= k < |gap| :: IsSpace(gap[k])
    requires line == key + gap + "=" + rest
    ensures TableKey(line) == Some(key)
  {
    var j := |key|;
    var k := j + |gap|;
    assert forall i | 0 <= i < j :: line[i] == key[i];
    assert forall i | j <= i < k :: line[i] == gap[i - j];
    assert line[k] == '=';
    assert j < k ==> line[j] == gap[0];
    SpanEndIs(line, 0, IsKeyNameChar, j);
    SpanEndIs(line, j, IsSpace, k);
    assert line[..j] == key;
  }

  /** The line opens one of the dependency sections. */
  predicate IsHeader(line: string, headers: seq<string>) {
    exists h | h in headers :: StartsWith(line, h)
  }

  /** The section flag after reading `lines`: set by a header line, cleared
      by any other line starting with `[`. */
  function InSection(lines: seq<string>, headers: seq<string>): bool
    decreases |lines|
  {
    if lines == [] then false
    else
      var line := lines[|lines| - 1];
      if IsHeader(line, headers) then true
      else if StartsWith(line, "[") then false
      else InSection(lines[..|lines| - 1], headers)
  }

  /** What one line contributes, given the flag before it: a header line
      nothing; any other line its key when the flag, after a `[` line has
      cleared it, is still set, unless the key is the excluded one. */
  function SectionLineKey(inSection: bool, line: string, headers: seq<string>, excluded: Option<string>): Option<string> {
    if IsHeader(line, headers) || StartsWith(line, "[") || !inSection then None
    else
      match TableKey(line)
      case Some(key) => if excluded == Some(key) then None else Some(key)
      case None => None
  }

  /** The keys the two-state scan emits over `lines`. */
  function SectionKeys(lines: seq<string>, headers: seq<string>, excluded: Option<string>): (keys: seq<string>)
    ensures forall key | key in keys ::
      key != "" && (forall k | 0 <= k < |key| :: IsKeyNameChar(key[k])) && excluded != Some(key)
    decreases |lines|
  {
    if lines == [] then []
    else
      var init := lines[..|lines| - 1];
      var keys := SectionKeys(init, headers, excluded);
      match SectionLineKey(InSection(init, headers), lines[|lines| - 1], headers, excluded)
      case Some(key) => keys + [key]
      case None => keys
  }

  /** The section scan shared by `parseCargoToml`, `parsePyprojectToml` and
      `parsePipfile`, which differ only in their headers and in the key
      they refuse. */
  method ParseSections(content: string, headers: seq<string>, excluded: Option<string>)
    returns (deps: seq<string>)
    ensures deps == SectionKeys(Lines(content), headers, excluded)
  {
    var lines := Lines(content);
    deps := [];
    var inDepsSection := false;
    for i := 0 to |lines|
      invariant inDepsSection == InSection(lines[..i], headers)
      invariant deps == SectionKeys(lines[..i], headers, excluded)
    {
      ScanStep(lines, headers, excluded, i);
      var line := lines[i];
      if IsHeader(line, headers) {
        inDepsSection := true;
        continue;
      }
      if StartsWith(line, "[") {
        inDepsSection := false;
      }
      if inDepsSection {
        match TableKey(line) {
          case Some(key) =>
            if excluded != Some(key) {
              deps := deps + [key];
            }
          case None =>
        }
      }
    }
    assert lines[..|lines|] == lines;
  }

  /** One more line of the scan: the flag and the emitted keys after it. */
  lemma ScanStep(lines: seq<string>, headers: seq<string>, excluded: Option<string>, i: nat)
    requires i < |lines|
    ensures InSection(lines[..i + 1], headers) ==
      if IsHeader(lines[i], headers) then true
      else if StartsWith(lines[i], "[") then false
      else InSection(lines[..i], headers)
    ensures SectionKeys(lines[..i + 1], headers, excluded) ==
      match SectionLineKey(InSection(lines[..i], headers), lines[i], headers, excluded)
      case Some(key) => SectionKeys(lines[..i], headers, excluded) + [key]
      case None => SectionKeys(lines[..i], headers, excluded)
  {
    assert lines[..i + 1][..i] == lines[..i];
    assert lines[..i + 1][i] == lines[i];
  }

  const CargoHeaders: seq<string> := ["[dependencies]", "[dev-dependencies]"]
  const PoetryHeaders: seq<string> := ["[tool.poetry.dependencies]"]
  const PipfileHeaders: seq<string> := ["[packages]", "[dev-packages]"]

  method ParseCargoToml(content: string) returns (deps: seq<string>)
    ensures deps == SectionKeys(Lines(content), CargoHeaders, None)
  {
    deps := ParseSections(content, CargoHeaders, None);
  }

  /** The Poetry rule refuses the `python` key, which names the interpreter
      version rather than a package. */
  method ParsePyprojectToml(content: string) returns (deps: seq<string>)
    ensures deps == SectionKeys(Lines(content), PoetryHeaders, Some("python"))
    ensures "python" !in deps
  {
    deps := ParseSections(content, PoetryHeaders, Some("python"));
  }

  method ParsePipfile(content: string) returns (deps: seq<string>)
    ensures deps == SectionKeys(Lines(content), PipfileHeaders, None)
  {
    deps := ParseSections(content, PipfileHeaders, None);
  }

  /** Line `j` is a header, and every later line that starts with `[` is a
      header too: the section it opened is still open. */
  predicate OpenedAt(lines: seq<string>, headers: seq<string>, j: int) {
    0 <= j < |lines| && IsHeader(lines[j], headers)
    && forall m | j < m < |lines| :: !StartsWith(lines[m], "[") || IsHeader(lines[m], headers)
  }

  /** The flag is set exactly when some header's section is still open. */
  lemma {:induction false} InSectionMeans(lines: seq<string>, headers: seq<string>)
    ensures InSection(lines, headers) <==> exists j :: OpenedAt(lines, headers, j)
    decreases |lines|
  {
    if lines != [] {
      var n := |lines|;
      var init := lines[..n - 1];
      InSectionMeans(init, headers);
      if IsHeader(lines[n - 1], headers) {
        assert OpenedAt(lines, headers, n - 1);
      } else if StartsWith(lines[n - 1], "[") {
        forall j | 0 <= j < n - 1 ensures !OpenedAt(lines, headers, j) {
          assert StartsWith(lines[n - 1], "[") && !IsHeader(lines[n - 1], headers);
        }
      } else {
        if j :| OpenedAt(init, headers, j) {
          assert OpenedAt(lines, headers, j);
        }
        if j :| OpenedAt(lines, headers, j) {
          assert j < n - 1 && OpenedAt(init, headers, j);
        }
      }
    }
  }

  /** Line `i` is a `key = ...` line inside an open section whose key is
      not the excluded one. */
  predicate KeyedLine(lines: seq<string>, headers: seq<string>, excluded: Option<string>, i: int, key: string) {
    0 <= i < |lines| && !IsHeader(lines[i], headers)
    && InSection(lines[..i], headers)
    && TableKey(lines[i]) == Some(key) && excluded != Some(key)
  }

  /** A key is emitted exactly when some line inside an open section
      declares it. */
  lemma SectionKeysMeans(lines: seq<string>, headers: seq<string>, excluded: Option<string>, key: string)
    ensures key in SectionKeys(lines, headers, excluded) <==> exists i :: KeyedLine(lines, headers, excluded, i, key)
  {
    if key in SectionKeys(lines, headers, excluded) {
      var i := EmittedFrom(lines, headers, excluded, key);
    }
    if i :| KeyedLine(lines, headers, excluded, i, key) {
      KeyedEmitted(lines, headers, excluded, key, i);
    }
  }

  /** Every emitted key comes from a keyed line. */
  lemma {:induction false} EmittedFrom(lines: seq<string>, headers: seq<string>, excluded: Option<string>, key: string)
    returns (i: nat)
    requires key in SectionKeys(lines, headers, excluded)
    ensures KeyedLine(lines, headers, excluded, i, key)
    decreases |lines|
  {
    var n := |lines|;
    var init := lines[..n - 1];
    LastKeyedLine(lines, headers, excluded, key);
    SectionKeysLast(lines, headers, excluded, key);
    if key in SectionKeys(init, headers, excluded) {
      i := EmittedFrom(init, headers, excluded, key);
      assert lines[..i] == init[..i];
    } else {
      i := n - 1;
    }
  }

  /** Every keyed line has its key emitted. */
  lemma {:induction false} KeyedEmitted(lines: seq<string>, headers: seq<string>, excluded: Option<string>, key: string, i: nat)
    requires KeyedLine(lines, headers, excluded, i, key)
    ensures key in SectionKeys(lines, headers, excluded)
    decreases |lines|
  {
    var n := |lines|;
    if i < n - 1 {
      KeyedLineInit(lines, headers, excluded, key, i);
      KeyedEmitted(lines[..n - 1], headers, excluded, key, i);
      SectionKeysLast(lines, headers, excluded, key);
    } else {
      KeyedLastEmitted(lines, headers, excluded, key);
    }
  }

  /** A keyed last line has its key emitted. */
  lemma KeyedLastEmitted(lines: seq<string>, headers: seq<string>, excluded: Option<string>, key: string)
    requires lines != [] && KeyedLine(lines, headers, excluded, |lines| - 1, key)
    ensures key in SectionKeys(lines, headers, excluded)
  {
    LastKeyedLine(lines, headers, excluded, key);
    SectionKeysLast(lines, headers, excluded, key);
  }

  /** A keyed line before the last is keyed in the lines before the last. */
  lemma KeyedLineInit(lines: seq<string>, headers: seq<string>, excluded: Option<string>, key: string, i: nat)
    requires KeyedLine(lines, headers, excluded, i, key) && i < |lines| - 1
    ensures KeyedLine(lines[..|lines| - 1], headers, excluded, i, key)
  {
    var init := lines[..|lines| - 1];
    assert lines[..i] == init[..i] && init[i] == lines[i];
  }

  /** The last line is keyed exactly when the scan emits its key. */
  lemma LastKeyedLine(lines: seq<string>, headers: seq<string>, excluded: Option<string>, key: string)
    requires lines != []
    ensures KeyedLine(lines, headers, excluded, |lines| - 1, key) <==>
      SectionLineKey(InSection(lines[..|lines| - 1], headers), lines[|lines| - 1], headers, excluded) == Some(key)
  {
    var line := lines[|lines| - 1];
  }

  /** The keys emitted over `lines` are those emitted over all but the last
      line, and the last line's own. */
  lemma SectionKeysLast(lines: seq<string>, headers: seq<string>, excluded: Option<string>, key: string)
    requires lines != []
    ensures key in SectionKeys(lines, headers, excluded) <==>
      key in SectionKeys(lines[..|lines| - 1], headers, excluded)
      || SectionLineKey(InSection(lines[..|lines| - 1], headers), lines[|lines| - 1], headers, excluded) == Some(key)
  {
  }
  // ---------------------------------------------------------------------
  // pom.xml

  const OpenTag := "<artifactId>"
  const CloseTag := "</artifactId>"

  predicate NotOpenAngle(c: char) { c != '<' }

  /** `/<artifactId>([^<]+)<\/artifactId>/` matched at position `q`: the
      element's text and the position after the match. */
  function ArtifactAt(s: string, q: nat): (m: Option<(string, nat)>)
    requires q <= |s|
    ensures m.Some? ==> var (id, e) := m.value;
      id != "" && '<' !in id && e <= |s| && e == q + |OpenTag + id + CloseTag|
      && StartsAt(s, q, OpenTag + id + CloseTag)
  {
    if !StartsAt(s, q, OpenTag) then None
    else
      var b := q + |OpenTag|;
      var e := SpanEnd(s, b, NotOpenAngle);
      if e == b || !StartsAt(s, e, CloseTag) then None
      else
        var id := s[b..e];
        assert s[q..e + |CloseTag|] == s[q..b] + id + s[e..e + |CloseTag|];
        Some((id, e + |CloseTag|))
  }

  /** Every match at or after `q`, in document order: what `matchAll` with
      the `g` flag enumerates. */
  function ArtifactIds(s: string, q: nat): (ids: seq<string>)
    requires q <= |s|
    ensures forall id | id in ids :: id != "" && '<' !in id
    decreases |s| - q
  {
    if q == |s| then []
    else
      match ArtifactAt(s, q)
      case Some((id, e)) => [id] + ArtifactIds(s, e)
      case None => ArtifactIds(s, q + 1)
  }

  /** Every name found is the text of an `<artifactId>` element of the
      document. */
  lemma {:induction false} ArtifactIdsOccur(s: string, q: nat, id: string)
    requires q <= |s| && id in ArtifactIds(s, q)
    ensures exists p | q <= p :: StartsAt(s, p, OpenTag + id + CloseTag)
    decreases |s| - q
  {
    match ArtifactAt(s, q)
    case Some((first, e)) =>
      if id != first {
        ArtifactIdsOccur(s, e, id);
      }
    case None =>
      ArtifactIdsOccur(s, q + 1, id);
  }

  /** An element whose text is non-empty and free of `<` is the match at
      its position. */
  lemma ArtifactAtIs(s: string, p: nat, id: string)
    requires id != "" && '<' !in id
    requires StartsAt(s, p, OpenTag + id + CloseTag)
    ensures ArtifactAt(s, p) == Some((id, p + |OpenTag + id + CloseTag|))
  {
    var b := p + |OpenTag|;
    var m := b + |id|;
    StartsAtConcat(s, p, OpenTag + id, CloseTag);
    StartsAtConcat(s, p, OpenTag, id);
    StartsAtChars(s, b, id);
    StartsAtChars(s, m, CloseTag);
    forall k | b <= k < m ensures NotOpenAngle(s[k]) {
      assert s[k] == id[k - b] && id[k - b] in id;
    }
    assert !NotOpenAngle(s[m]) by {
      assert s[m] == CloseTag[0];
    }
    SpanEndIs(s, b, NotOpenAngle, m);
  }

  /** A document made of one element yields that element's text. */
  lemma SingleArtifact(s: string, id: string)
    requires id != "" && '<' !in id
    requires s == OpenTag + id + CloseTag
    ensures ArtifactIds(s, 0) == [id]
  {
    assert s[0..|s|] == s;
    ArtifactAtIs(s, 0, id);
  }

  /** The text of the element at each position from `q` on, position by
      position: a reading of the document that never skips. */
  function ElementsFrom(s: string, q: nat): seq<string>
    requires q <= |s|
    decreases |s| - q
  {
    if q == |s| then []
    else
      match ArtifactAt(s, q)
      case Some((id, _)) => [id] + ElementsFrom(s, q + 1)
      case None => ElementsFrom(s, q + 1)
  }

  /** A position with no opening tag contributes no element. */
  lemma ElementsFromNone(s: string, p: nat)
    requires p < |s| && !StartsAt(s, p, OpenTag)
    ensures ElementsFrom(s, p) == ElementsFrom(s, p + 1)
  {
    assert ArtifactAt(s, p) == None;
  }

  /** `w` does not occur at `p` when one of its characters is not there. */
  lemma MismatchAt(s: string, p: nat, w: string, i: nat)
    requires i < |w| && p + i < |s| && s[p + i] != w[i]
    ensures !StartsAt(s, p, w)
  {
    if p + |w| <= |s| {
      assert s[p..p + |w|][i] == s[p + i];
    }
  }

  /** No element starts inside another: within a match, `<` occurs only at
      its own start and at the `</` of its closing tag. */
  lemma NoOpenInside(s: string, q: nat, id: string, e: nat, p: nat)
    requires q <= |s| && ArtifactAt(s, q) == Some((id, e))
    requires q < p < e
    ensures !StartsAt(s, p, OpenTag)
  {
    var w := OpenTag + id + CloseTag;
    var m := |OpenTag| + |id|;
    var d := p - q;
    assert s[q..e] == w;
    assert s[p] == w[d];
    if d < |OpenTag| {
      assert w[d] == OpenTag[d];
      assert forall k | 1 <= k < |OpenTag| :: OpenTag[k] != '<';
      MismatchAt(s, p, OpenTag, 0);
    } else if d < m {
      assert w[d] == id[d - |OpenTag|] && w[d] in id;
      MismatchAt(s, p, OpenTag, 0);
    } else if d == m {
      assert s[p + 1] == w[m + 1] == CloseTag[1] == '/';
      MismatchAt(s, p, OpenTag, 1);
    } else {
      assert w[d] == CloseTag[d - m];
      assert forall k | 1 <= k < |CloseTag| :: CloseTag[k] != '<';
      MismatchAt(s, p, OpenTag, 0);
    }
  }

  /** The positions strictly inside a match hold no element. */
  lemma {:induction false} SkipInside(s: string, q: nat, id: string, e: nat, p: nat)
    requires q <= |s| && ArtifactAt(s, q) == Some((id, e))
    requires q < p <= e
    ensures ElementsFrom(s, p) == ElementsFrom(s, e)
    decreases e - p
  {
    if p < e {
      NoOpenInside(s, q, id, e, p);
      ElementsFromNone(s, p);
      SkipInside(s, q, id, e, p + 1);
    }
  }

  /** The scan that resumes after each match finds the element at every
      position, in document order. */
  lemma {:induction false} ArtifactIdsAreElements(s: string, q: nat)
    requires q <= |s|
    ensures ArtifactIds(s, q) == ElementsFrom(s, q)
    decreases |s| - q
  {
    if q < |s| {
      match ArtifactAt(s, q)
      case Some((id, e)) =>
        SkipInside(s, q, id, e, q + 1);
        ArtifactIdsAreElements(s, e);
      case None =>
        ArtifactIdsAreElements(s, q + 1);
    }
  }

  /** The text of the element at each position from `q` up to `p`. */
  function ElementsBetween(s: string, q: nat, p: nat): seq<string>
    requires q <= p <= |s|
    decreases p - q
  {
    if q == p then []
    else
      match ArtifactAt(s, q)
      case Some((id, _)) => [id] + ElementsBetween(s, q + 1, p)
      case None => ElementsBetween(s, q + 1, p)
  }

  /** The elements from `q` are those before `p`, then those from `p`. */
  lemma {:induction false} ElementsSplit(s: string, q: nat, p: nat)
    requires q <= p <= |s|
    ensures ElementsFrom(s, q) == ElementsBetween(s, q, p) + ElementsFrom(s, p)
    decreases p - q
  {
    if q < p {
      ElementsSplit(s, q + 1, p);
    }
  }

  /** The element at position `p` heads the elements from `p`. */
  lemma ElementHeads(s: string, p: nat, id: string)
    requires id != "" && '<' !in id
    requires StartsAt(s, p, OpenTag + id + CloseTag)
    ensures ElementsFrom(s, p) == [id] + ElementsFrom(s, p + 1)
  {
    ArtifactAtIs(s, p, id);
  }

  /** Every element of the document is found. */
  lemma ArtifactIdsComplete(s: string, p: nat, id: string)
    requires id != "" && '<' !in id
    requires StartsAt(s, p, OpenTag + id + CloseTag)
    ensures id in ArtifactIds(s, 0)
  {
    ArtifactIdsAreElements(s, 0);
    ElementHeads(s, p, id);
    ElementsSplit(s, 0, p);
    var before := ElementsBetween(s, 0, p);
    assert ArtifactIds(s, 0)[|before|] == id;
  }

  /** Elements are found in document order: an earlier element's text is
      listed before a later one's. */
  lemma ArtifactIdsInOrder(s: string, p1: nat, id1: string, p2: nat, id2: string)
    requires id1 != "" && '<' !in id1 && StartsAt(s, p1, OpenTag + id1 + CloseTag)
    requires id2 != "" && '<' !in id2 && StartsAt(s, p2, OpenTag + id2 + CloseTag)
    requires p1 < p2
    ensures exists i, j | 0 <= i < j < |ArtifactIds(s, 0)| ::
      ArtifactIds(s, 0)[i] == id1 && ArtifactIds(s, 0)[j] == id2
  {
    ArtifactIdsAreElements(s, 0);
    ElementHeads(s, p1, id1);
    ElementHeads(s, p2, id2);
    ElementsSplit(s, 0, p1);
    ElementsSplit(s, p1 + 1, p2);
    var a, b := ElementsBetween(s, 0, p1), ElementsBetween(s, p1 + 1, p2);
    var ids := ArtifactIds(s, 0);
    assert ids == a + ([id1] + (b + ([id2] + ElementsFrom(s, p2 + 1))));
    var i, j := |a|, |a| + 1 + |b|;
    assert ids[i] == id1 && ids[j] == id2;
  }

  /** The loop of `parsePomXml` over the matches. */
  method ParsePomXml(content: string) returns (deps: seq<string>)
    ensures deps == ArtifactIds(content, 0)
  {
    deps := [];
    var q := 0;
    while q < |content|
      invariant q <= |content|
      invariant deps + ArtifactIds(content, q) == ArtifactIds(content, 0)
      decreases |content| - q
    {
      match ArtifactAt(content, q) {
        case Some((id, e)) =>
          deps := deps + [id];
          q := e;
        case None =>
          q := q + 1;
      }
    }
  }

  // ---------------------------------------------------------------------
  // build.gradle

  predicate IsCoordinateChar(c: char) { c != ':' && !IsQuote(c) }

  /** The position after `implementation`, `api`, `compile` or
      `testImplementation` when one of them starts at `q`. */
  function ConfigurationEnd(line: string, q: nat): (b: Option<nat>)
    ensures b.Some? ==> q < b.value <= |line|
  {
    if StartsAt(line, q, "implementation") then Some(q + |"implementation"|)
    else if StartsAt(line, q, "api") then Some(q + |"api"|)
    else if StartsAt(line, q, "compile") then Some(q + |"compile"|)
    else if StartsAt(line, q, "testImplementation") then Some(q + |"testImplementation"|)
    else None
  }

  /** `/(?:implementation|api|compile|testImplementation)\s*['"]([^:'"]+):([^:'"]+)/`
      matched at position `q`: the second coordinate. */
  function CoordinateAt(line: string, q: nat): (name: Option<string>)
    ensures name.Some? ==> name.value != "" && forall k | 0 <= k < |name.value| :: IsCoordinateChar(name.value[k])
  {
    match ConfigurationEnd(line, q)
    case None => None
    case Some(b) => CoordinateAfter(line, b)
  }

  /** `\s*['"]([^:'"]+):([^:'"]+)` matched at position `b`. */
  function CoordinateAfter(line: string, b: nat): (name: Option<string>)
    requires b <= |line|
    ensures name.Some? ==> name.value != "" && forall k | 0 <= k < |name.value| :: IsCoordinateChar(name.value[k])
  {
    var k := SpanEnd(line, b, IsSpace);
    if k == |line| || !IsQuote(line[k]) then None
    else
      var g := SpanEnd(line, k + 1, IsCoordinateChar);
      if g == k + 1 || g == |line| || line[g] != ':' then None
      else
        var e := SpanEnd(line, g + 1, IsCoordinateChar);
        if e == g + 1 then None else Some(line[g + 1..e])
  }

  /** The leftmost match at or after `q`, as `exec` finds it. */
  function CoordinateSearch(line: string, q: nat): (name: Option<string>)
    requires q <= |line|
    ensures name.Some? ==> name.value != "" && forall k | 0 <= k < |name.value| :: IsCoordinateChar(name.value[k])
    decreases |line| - q
  {
    if CoordinateAt(line, q).Some? then CoordinateAt(line, q)
    else if q == |line| then None
    else CoordinateSearch(line, q + 1)
  }

  function GradleDependency(line: string): Option<string> {
    CoordinateSearch(line, 0)
  }

  /** `parseBuildGradle`, as a value: at most one name per line, none empty
      and none holding a `:` or a quote. */
  function GradleDeps(content: string): (deps: seq<string>)
    ensures |deps| <= |Lines(content)|
    ensures forall d | d in deps :: d != "" && forall k | 0 <= k < |d| :: IsCoordinateChar(d[k])
  {
    var deps := Collect(Lines(content), GradleDependency);
    forall d | d in deps ensures d != "" && forall k | 0 <= k < |d| :: IsCoordinateChar(d[k]) {
      CollectMembers(Lines(content), GradleDependency, d);
    }
    deps
  }

  /** The loop of `parseBuildGradle`. */
  method ParseBuildGradle(content: string) returns (deps: seq<string>)
    ensures deps == GradleDeps(content)
  {
    var lines := Lines(content);
    deps := [];
    for i := 0 to |lines|
      invariant deps == Collect(lines[..i], GradleDependency)
    {
      assert lines[..i + 1][..i] == lines[..i];
      match CoordinateSearch(lines[i], 0) {
        case Some(name) => deps := deps + [name];
        case None =>
      }
    }
    assert lines[..|lines|] == lines;
  }

  /** The four configuration keywords the expression accepts. */
  predicate IsConfiguration(kw: string) {
    kw == "implementation" || kw == "api" || kw == "compile" || kw == "testImplementation"
  }

  /** The keywords differ in their first character, so the one that occurs
      is the one the alternation takes. */
  lemma ConfigurationEndIs(line: string, q: nat, kw: string)
    requires IsConfiguration(kw) && StartsAt(line, q, kw)
    ensures ConfigurationEnd(line, q) == Some(q + |kw|)
  {
    assert line[q] == line[q..q + |kw|][0] == kw[0];
    if kw != "implementation" {
      MismatchAt(line, q, "implementation", 0);
    }
    if kw != "api" {
      MismatchAt(line, q, "api", 0);
    }
    if kw != "compile" {
      MismatchAt(line, q, "compile", 0);
    }
  }

  /** No keyword starts at a white-space character. */
  lemma NoConfigurationAtSpace(line: string, q: nat)
    requires q < |line| && IsSpace(line[q])
    ensures CoordinateAt(line, q) == None
  {
    MismatchAt(line, q, "implementation", 0);
    MismatchAt(line, q, "api", 0);
    MismatchAt(line, q, "compile", 0);
    MismatchAt(line, q, "testImplementation", 0);
  }

  /** The search from `q` returns the first match at or after `q`. */
  lemma {:induction false} CoordinateSearchFirst(line: string, q: nat, p: nat)
    requires q <= p <= |line|
    requires forall r | q <= r < p :: CoordinateAt(line, r) == None
    requires CoordinateAt(line, p).Some?
    ensures CoordinateSearch(line, q) == CoordinateAt(line, p)
    decreases p - q
  {
    if q < p {
      CoordinateSearchFirst(line, q + 1, p);
    }
  }

  /** The search as a leftmost match over any matcher `f`. */
  lemma {:induction false} CoordinateSearchIsLeftmost(line: string, q: nat)
    requires q <= |line|
    ensures CoordinateSearch(line, q) == Leftmost((p: nat) => CoordinateAt(line, p), q, |line|)
    decreases |line| - q
  {
    if CoordinateAt(line, q) == None && q < |line| {
      CoordinateSearchIsLeftmost(line, q + 1);
    }
  }

  /** A line yields `n` exactly when the leftmost match of the expression
      captures `n`. */
  lemma GradleDependencyMeans(line: string, n: string)
    ensures GradleDependency(line) == Some(n) <==>
      exists p | 0 <= p <= |line| :: CoordinateAt(line, p) == Some(n)
        && forall r | 0 <= r < p :: CoordinateAt(line, r) == None
  {
    var f := (p: nat) => CoordinateAt(line, p);
    CoordinateSearchIsLeftmost(line, 0);
    if GradleDependency(line) == Some(n) {
      var p := LeftmostFound(f, 0, |line|);
      forall r | 0 <= r < p ensures CoordinateAt(line, r) == None {
        assert f(r) == None;
      }
      assert CoordinateAt(line, p) == Some(n);
    }
    if p :| 0 <= p <= |line| && CoordinateAt(line, p) == Some(n) && forall r | 0 <= r < p :: CoordinateAt(line, r) == None {
      forall r | 0 <= r < p ensures f(r) == None {
        assert CoordinateAt(line, r) == None;
      }
      LeftmostAt(f, 0, p, |line|);
    }
  }

  /** A line yields nothing exactly when the expression matches nowhere in
      it. */
  lemma GradleNoDependency(line: string)
    ensures GradleDependency(line) == None <==>
      forall p | 0 <= p <= |line| :: CoordinateAt(line, p) == None
  {
    var f := (p: nat) => CoordinateAt(line, p);
    CoordinateSearchIsLeftmost(line, 0);
    if GradleDependency(line) == None {
      LeftmostNone(f, 0, |line|);
      forall p | 0 <= p <= |line| ensures CoordinateAt(line, p) == None {
        assert f(p) == None;
      }
    } else {
      var p := LeftmostFound(f, 0, |line|);
      assert CoordinateAt(line, p) != None;
    }
  }

  /** The declaration `<kw><gap><quote><group>:<name>` as written in a
      build file. */
  function Declaration(kw: string, gap: string, quote: char, group: string, name: string): string {
    kw + gap + [quote] + group + ":" + name
  }

  /** Where each part of a declaration sits once it occurs at `p`. */
  lemma DeclarationSplit(line: string, p: nat, kw: string, gap: string, quote: char, group: string, name: string)
    requires StartsAt(line, p, Declaration(kw, gap, quote, group, name))
    ensures var k := p + |kw| + |gap|;
      var g := k + 1 + |group|;
      StartsAt(line, p, kw) && StartsAt(line, p + |kw|, gap)
      && k < |line| && line[k] == quote
      && StartsAt(line, k + 1, group)
      && g < |line| && line[g] == ':'
      && StartsAt(line, g + 1, name)
      && p + |Declaration(kw, gap, quote, group, name)| == g + 1 + |name|
  {
    var k := p + |kw| + |gap|;
    var g := k + 1 + |group|;
    StartsAtConcat(line, p, kw + gap + [quote] + group + ":", name);
    StartsAtConcat(line, p, kw + gap + [quote] + group, ":");
    StartsAtConcat(line, p, kw + gap + [quote], group);
    StartsAtConcat(line, p, kw + gap, [quote]);
    StartsAtConcat(line, p, kw, gap);
    StartsAtChars(line, k, [quote]);
    StartsAtChars(line, g, ":");
  }

  /** The coordinate part `<gap><quote><group>:<name>` laid out from `b`,
      not followed by another coordinate character, captures `<name>`. */
  lemma CoordinatesAt(line: string, b: nat, gap: string, quote: char, group: string, name: string)
    requires forall k | 0 <= k < |gap| :: IsSpace(gap[k])
    requires IsQuote(quote)
    requires group != "" && forall k | 0 <= k < |group| :: IsCoordinateChar(group[k])
    requires name != "" && forall k | 0 <= k < |name| :: IsCoordinateChar(name[k])
    requires StartsAt(line, b, gap)
    requires var k := b + |gap|; k < |line| && line[k] == quote && StartsAt(line, k + 1, group)
    requires var g := b + |gap| + 1 + |group|; g < |line| && line[g] == ':' && StartsAt(line, g + 1, name)
    requires var e := b + |gap| + 2 + |group| + |name|; e == |line| || !IsCoordinateChar(line[e])
    ensures CoordinateAfter(line, b) == Some(name)
  {
    var k := b + |gap|;
    var g := k + 1 + |group|;
    var e := g + 1 + |name|;
    SpacesAt(line, b, gap);
    CoordinateCharsAt(line, k + 1, group);
    CoordinateCharsAt(line, g + 1, name);
    CoordinateAfterIs(line, b, k, g, e);
  }

  /** Spaces placed at `b` make the line blank over their span. */
  lemma SpacesAt(line: string, b: nat, gap: string)
    requires forall k | 0 <= k < |gap| :: IsSpace(gap[k])
    requires StartsAt(line, b, gap)
    ensures forall i | b <= i < b + |gap| :: IsSpace(line[i])
  {
    StartsAtChars(line, b, gap);
    forall i | b <= i < b + |gap| ensures IsSpace(line[i]) {
      assert line[b + (i - b)] == gap[i - b];
    }
  }

  /** Coordinate characters placed at `b` stay coordinate characters in the line. */
  lemma CoordinateCharsAt(line: string, b: nat, w: string)
    requires forall k | 0 <= k < |w| :: IsCoordinateChar(w[k])
    requires StartsAt(line, b, w)
    ensures forall i | b <= i < b + |w| :: IsCoordinateChar(line[i])
  {
    StartsAtChars(line, b, w);
    forall i | b <= i < b + |w| ensures IsCoordinateChar(line[i]) {
      assert line[b + (i - b)] == w[i - b];
    }
  }

  /** A declaration at position `p`, not followed by another coordinate
      character, is a match there capturing `<name>`. */
  lemma DeclarationAt(line: string, p: nat, kw: string, gap: string, quote: char, group: string, name: string)
    requires IsConfiguration(kw)
    requires forall k | 0 <= k < |gap| :: IsSpace(gap[k])
    requires IsQuote(quote)
    requires group != "" && forall k | 0 <= k < |group| :: IsCoordinateChar(group[k])
    requires name != "" && forall k | 0 <= k < |name| :: IsCoordinateChar(name[k])
    requires StartsAt(line, p, Declaration(kw, gap, quote, group, name))
    requires var e := p + |Declaration(kw, gap, quote, group, name)|;
      e == |line| || !IsCoordinateChar(line[e])
    ensures CoordinateAt(line, p) == Some(name)
  {
    DeclarationSplit(line, p, kw, gap, quote, group, name);
    ConfigurationEndIs(line, p, kw);
    CoordinatesAt(line, p + |kw|, gap, quote, group, name);
    MatchOfParts(line, p, p + |kw|, name);
  }

  /** A match is the keyword's end followed by the coordinate part. */
  lemma MatchOfParts(line: string, p: nat, b: nat, name: string)
    requires ConfigurationEnd(line, p) == Some(b) && b <= |line|
    requires CoordinateAfter(line, b) == Some(name)
    ensures CoordinateAt(line, p) == Some(name)
  {
  }

  /** `<kw> '<group>:<name>...'`, for any of the four keywords, after a
      stretch of the line where the expression does not match, declares
      `<name>`. */
  lemma GradleDeclared(line: string, prefix: string, kw: string, gap: string, quote: char,
                       group: string, name: string, rest: string)
    requires IsConfiguration(kw)
    requires forall k | 0 <= k < |gap| :: IsSpace(gap[k])
    requires IsQuote(quote)
    requires group != "" && forall k | 0 <= k < |group| :: IsCoordinateChar(group[k])
    requires name != "" && forall k | 0 <= k < |name| :: IsCoordinateChar(name[k])
    requires rest == "" || !IsCoordinateChar(rest[0])
    requires line == prefix + Declaration(kw, gap, quote, group, name) + rest
    requires forall q | 0 <= q < |prefix| :: CoordinateAt(line, q) == None
    ensures GradleDependency(line) == Some(name)
  {
    var d := Declaration(kw, gap, quote, group, name);
    var p := |prefix|;
    assert line[p..p + |d|] == d;
    assert rest != "" ==> line[p + |d|] == rest[0];
    DeclarationAt(line, p, kw, gap, quote, group, name);
    CoordinateSearchFirst(line, 0, p);
  }

  /** The usual indented declaration `    <kw> '<group>:<name>...'` declares
      `<name>`. */
  lemma IndentedDeclaration(line: string, indent: string, kw: string, gap: string, quote: char,
                            group: string, name: string, rest: string)
    requires forall k | 0 <= k < |indent| :: IsSpace(indent[k])
    requires IsConfiguration(kw)
    requires forall k | 0 <= k < |gap| :: IsSpace(gap[k])
    requires IsQuote(quote)
    requires group != "" && forall k | 0 <= k < |group| :: IsCoordinateChar(group[k])
    requires name != "" && forall k | 0 <= k < |name| :: IsCoordinateChar(name[k])
    requires rest == "" || !IsCoordinateChar(rest[0])
    requires line == indent + Declaration(kw, gap, quote, group, name) + rest
    ensures GradleDependency(line) == Some(name)
  {
    forall q | 0 <= q < |indent| ensures CoordinateAt(line, q) == None {
      assert line[q] == indent[q];
      NoConfigurationAtSpace(line, q);
    }
    GradleDeclared(line, indent, kw, gap, quote, group, name, rest);
  }

  /** A name is in `parseBuildGradle`'s result exactly when some line of the
      file yields it. */
  lemma GradleDepsMeans(content: string, d: string)
    ensures d in GradleDeps(content) <==>
      exists i | 0 <= i < |Lines(content)| :: GradleDependency(Lines(content)[i]) == Some(d)
  {
    CollectMembers(Lines(content), GradleDependency, d);
  }

  /** The coordinate part of a declaration, read from position `b`: a gap
      up to `k`, a quote at `k`, the group up to `g`, a `:` at `g` and the
      name up to `e`. */
  lemma CoordinateAfterIs(line: string, b: nat, k: nat, g: nat, e: nat)
    requires b <= k < g < e <= |line|
    requires forall i | b <= i < k :: IsSpace(line[i])
    requires IsQuote(line[k])
    requires g > k + 1 && forall i | k < i < g :: IsCoordinateChar(line[i])
    requires line[g] == ':'
    requires e > g + 1 && forall i | g < i < e :: IsCoordinateChar(line[i])
    requires e == |line| || !IsCoordinateChar(line[e])
    ensures CoordinateAfter(line, b) == Some(line[g + 1..e])
  {
    SpanEndIs(line, b, IsSpace, k);
    SpanEndIs(line, k + 1, IsCoordinateChar, g);
    SpanEndIs(line, g + 1, IsCoordinateChar, e);
  }
  // ---------------------------------------------------------------------
  // package.json and composer.json

  /** A JSON document as the two JSON rules see it: `JSON.parse` either
      throws, or gives an object whose members of interest are objects,
      each represented by its keys in `Object.keys` order. */
  datatype Json = Unparsable | Object(members: map<string, seq<string>>)

  /** `Object.keys(doc[field] ?? {})` */
  function FieldKeys(members: map<string, seq<string>>, field: string): seq<string> {
    if field in members then members[field] else []
  }

  /** The shared shape of the two JSON rules: fails on a document that does
      not parse; otherwise the keys of the `first` object in order, then
      those of the `second`. */
  function JsonKeys(doc: Json, first: string, second: string): (deps: Option<seq<string>>)
    ensures deps.None? <==> doc.Unparsable?
    ensures deps.Some? ==> var runtime := FieldKeys(doc.members, first);
      |runtime| <= |deps.value| && deps.value[..|runtime|] == runtime
      && deps.value[|runtime|..] == FieldKeys(doc.members, second)
  {
    match doc
    case Unparsable => None
    case Object(members) => Some(FieldKeys(members, first) + FieldKeys(members, second))
  }

  /** `parsePackageJson`: the `dependencies` keys, then the
      `devDependencies` keys. */
  function ParsePackageJson(doc: Json): Option<seq<string>> {
    JsonKeys(doc, "dependencies", "devDependencies")
  }

  /** `parseComposerJson`: the `require` keys, then the `require-dev`
      keys. */
  function ParseComposerJson(doc: Json): Option<seq<string>> {
    JsonKeys(doc, "require", "require-dev")
  }

  // ---------------------------------------------------------------------
  // parseDependencies

  /** The kinds of dependency file, in the order the program tries them. */
  datatype Manifest =
    | PackageJson | RequirementsTxt | GoMod | CargoToml | ComposerJson
    | Gemfile | PomXml | BuildGradle | PyprojectToml | Pipfile

  const Manifests: seq<Manifest> :=
    [PackageJson, RequirementsTxt, GoMod, CargoToml, ComposerJson,
     Gemfile, PomXml, BuildGradle, PyprojectToml, Pipfile]

  function FileName(m: Manifest): string {
    match m
    case PackageJson => "package.json"
    case RequirementsTxt => "requirements.txt"
    case GoMod => "go.mod"
    case CargoToml => "Cargo.toml"
    case ComposerJson => "composer.json"
    case Gemfile => "Gemfile"
    case PomXml => "pom.xml"
    case BuildGradle => "build.gradle"
    case PyprojectToml => "pyproject.toml"
    case Pipfile => "Pipfile"
  }

  /** `path.join(dir, name)` */
  function Path(dir: string, name: string): string {
    if dir == "" then name else dir + "/" + name
  }

  /** The repository root and its usual sub-folders, searched in this
      order. */
  function SearchPaths(repo: string): seq<string> {
    [repo, Path(repo, "frontend"), Path(repo, "backend"), Path(repo, "src"),
     Path(repo, "client"), Path(repo, "server")]
  }

  /** What a rule makes of a file's content; `None` when it throws. The
      JSON rules take the document `parse` gives for the content. */
  function Extract(m: Manifest, content: string, parse: string -> Json): Option<seq<string>> {
    match m
    case PackageJson => ParsePackageJson(parse(content))
    case RequirementsTxt => Some(ParseRequirementsTxt(content))
    case GoMod => Some(GoModDeps(content))
    case CargoToml => Some(SectionKeys(Lines(content), CargoHeaders, None))
    case ComposerJson => ParseComposerJson(parse(content))
    case Gemfile => Some(ParseGemfile(content))
    case PomXml => Some(ArtifactIds(content, 0))
    case BuildGradle => Some(GradleDeps(content))
    case PyprojectToml => Some(SectionKeys(Lines(content), PoetryHeaders, Some("python")))
    case Pipfile => Some(SectionKeys(Lines(content), PipfileHeaders, None))
  }

  /** `depFile.parser(content)`, dispatched to the rule's own parser. */
  method ParseManifest(m: Manifest, content: string, parse: string -> Json)
    returns (deps: Option<seq<string>>)
    ensures deps == Extract(m, content, parse)
  {
    match m {
      case PackageJson => deps := ParsePackageJson(parse(content));
      case RequirementsTxt => deps := Some(ParseRequirementsTxt(content));
      case GoMod =>
        var names := ParseGoMod(content);
        deps := Some(names);
      case CargoToml =>
        var names := ParseCargoToml(content);
        deps := Some(names);
      case ComposerJson => deps := ParseComposerJson(parse(content));
      case Gemfile => deps := Some(ParseGemfile(content));
      case PomXml =>
        var names := ParsePomXml(content);
        deps := Some(names);
      case BuildGradle =>
        var names := ParseBuildGradle(content);
        deps := Some(names);
      case PyprojectToml =>
        var names := ParsePyprojectToml(content);
        deps := Some(names);
      case Pipfile =>
        var names := ParsePipfile(content);
        deps := Some(names);
    }
  }

  /** A file the aggregation tries to read, and the rule it applies. */
  datatype Probe = Probe(path: string, manifest: Manifest)

  /** A directory entry as `readdir` with `withFileTypes` reports it. */
  datatype Entry = Entry(name: string, isDirectory: bool)

  /** The names a probe contributes, or `None` when the file is missing or
      its rule throws. */
  function Found(p: Probe, read: string -> Option<string>, parse: string -> Json): Option<seq<string>> {
    match read(p.path)
    case None => None
    case Some(content) => Extract(p.manifest, content, parse)
  }

  /** `Found` with the file system and the JSON parser fixed. */
  function FoundBy(read: string -> Option<string>, parse: string -> Json): Probe -> Option<seq<string>> {
    p => Found(p, read, parse)
  }

  predicate Yields(found: Probe -> Option<seq<string>>, p: Probe, name: string) {
    found(p).Some? && name in found(p).value
  }

  /** Every rule in `dir`, in order. */
  function DirProbes(dir: string, ms: seq<Manifest>): seq<Probe>
    decreases |ms|
  {
    if ms == [] then []
    else
      var m := ms[|ms| - 1];
      DirProbes(dir, ms[..|ms| - 1]) + [Probe(Path(dir, FileName(m)), m)]
  }

  /** Every rule in every directory of `dirs`. */
  function RootProbes(dirs: seq<string>): seq<Probe>
    decreases |dirs|
  {
    if dirs == [] then []
    else RootProbes(dirs[..|dirs| - 1]) + DirProbes(dirs[|dirs| - 1], Manifests)
  }

  /** `<repo>/<dir>/package.json` for every directory entry of the root. */
  function SubdirProbes(repo: string, entries: seq<Entry>): seq<Probe>
    decreases |entries|
  {
    if entries == [] then []
    else
      var e := entries[|entries| - 1];
      SubdirProbes(repo, entries[..|entries| - 1])
      + (if e.isDirectory then [Probe(Path(Path(repo, e.name), "package.json"), PackageJson)] else [])
  }

  /** Every file the aggregation tries, in order; `listing` is `None` when
      the root cannot be listed. */
  function Probes(repo: string, listing: Option<seq<Entry>>): seq<Probe> {
    RootProbes(SearchPaths(repo))
    + match listing
      case None => []
      case Some(entries) => SubdirProbes(repo, entries)
  }

  /** The names the probes yield, each added once in order of first
      appearance, as a `Set` grows; a probe that fails adds nothing. */
  function Gather(probes: seq<Probe>, found: Probe -> Option<seq<string>>): (deps: seq<string>)
    ensures NoDup(deps)
    decreases |probes|
  {
    if probes == [] then []
    else
      var deps := Gather(probes[..|probes| - 1], found);
      match found(probes[|probes| - 1])
      case Some(names) => AddAll(deps, names)
      case None => deps
  }

  /** A name is gathered exactly when some probe yields it. */
  lemma GatherMembers(probes: seq<Probe>, found: Probe -> Option<seq<string>>, name: string)
    ensures name in Gather(probes, found) <==>
      exists i | 0 <= i < |probes| :: Yields(found, probes[i], name)
  {
    if name in Gather(probes, found) {
      var i := GatheredFrom(probes, found, name);
    }
    if i :| 0 <= i < |probes| && Yields(found, probes[i], name) {
      YieldedGathered(probes, found, name, i);
    }
  }

  lemma {:induction false} GatheredFrom(probes: seq<Probe>, found: Probe -> Option<seq<string>>, name: string)
    returns (i: nat)
    requires name in Gather(probes, found)
    ensures i < |probes| && Yields(found, probes[i], name)
    decreases |probes|
  {
    var init := probes[..|probes| - 1];
    if name in Gather(init, found) {
      i := GatheredFrom(init, found, name);
      assert init[i] == probes[i];
    } else {
      GatherLast(probes, found, name);
      i := |probes| - 1;
    }
  }

  lemma {:induction false} YieldedGathered(probes: seq<Probe>, found: Probe -> Option<seq<string>>, name: string, i: nat)
    requires i < |probes| && Yields(found, probes[i], name)
    ensures name in Gather(probes, found)
    decreases |probes|
  {
    var init := probes[..|probes| - 1];
    GatherLast(probes, found, name);
    if i < |probes| - 1 {
      assert init[i] == probes[i];
      YieldedGathered(init, found, name, i);
    }
  }

  /** The last probe adds exactly the names it yields. */
  lemma GatherLast(probes: seq<Probe>, found: Probe -> Option<seq<string>>, name: string)
    requires probes != []
    ensures name in Gather(probes, found) <==>
      name in Gather(probes[..|probes| - 1], found) || Yields(found, probes[|probes| - 1], name)
  {
  }

  /** A probe that fails can be dropped without changing the result: a
      missing or unparsable file does not affect the others. */
  lemma {:induction false} GatherSkipsFailed(before: seq<Probe>, p: Probe, after: seq<Probe>, found: Probe -> Option<seq<string>>)
    requires found(p).None?
    ensures Gather(before + [p] + after, found) == Gather(before + after, found)
    decreases |after|
  {
    if after == [] {
      assert before + [p] + after == before + [p];
      assert before + after == before;
      GatherAppend(before, p, found);
    } else {
      var init, last := after[..|after| - 1], after[|after| - 1];
      GatherSkipsFailed(before, p, init, found);
      SkipStep(before, p, init, last, found);
      assert after == init + [last];
    }
  }

  /** The induction step of `GatherSkipsFailed`, on its own. */
  lemma SkipStep(before: seq<Probe>, p: Probe, init: seq<Probe>, last: Probe, found: Probe -> Option<seq<string>>)
    requires Gather(before + [p] + init, found) == Gather(before + init, found)
    ensures Gather(before + [p] + (init + [last]), found) == Gather(before + (init + [last]), found)
  {
    GatherSameLast(before + [p] + init, before + init, last, found);
    SnocAssoc(before + [p], init, last);
    SnocAssoc(before, init, last);
  }

  /** Appending after a concatenation. */
  lemma SnocAssoc<T>(a: seq<T>, b: seq<T>, x: T)
    ensures a + (b + [x]) == (a + b) + [x]
  {
  }

  /** Probe lists that gather alike still do after one more probe. */
  lemma GatherSameLast(a: seq<Probe>, b: seq<Probe>, p: Probe, found: Probe -> Option<seq<string>>)
    requires Gather(a, found) == Gather(b, found)
    ensures Gather(a + [p], found) == Gather(b + [p], found)
  {
    GatherAppend(a, p, found);
    GatherAppend(b, p, found);
  }

  /** Gathering one more probe. */
  lemma GatherAppend(probes: seq<Probe>, p: Probe, found: Probe -> Option<seq<string>>)
    ensures Gather(probes + [p], found) ==
      match found(p)
      case Some(names) => AddAll(Gather(probes, found), names)
      case None => Gather(probes, found)
  {
    assert (probes + [p])[..|probes|] == probes;
  }

  /** `for (const dep of deps) dependencies.add(dep)` */
  method AddInOrder(acc: seq<string>, names: seq<string>) returns (r: seq<string>)
    ensures r == AddAll(acc, names)
  {
    r := acc;
    for i := 0 to |names|
      invariant AddAll(r, names[i..]) == AddAll(acc, names)
    {
      assert names[i..][1..] == names[i + 1..];
      if names[i] !in r {
        r := r + [names[i]];
      }
    }
  }

  /** One probe of the loops of `parseDependencies`: read the file, run its
      rule, add what it yields; a failure is skipped. */
  method TryProbe(deps: seq<string>, p: Probe, read: string -> Option<string>, parse: string -> Json)
    returns (r: seq<string>)
    ensures r == match Found(p, read, parse)
      case Some(names) => AddAll(deps, names)
      case None => deps
  {
    r := deps;
    match read(p.path) {
      case Some(content) =>
        var result := ParseManifest(p.manifest, content, parse);
        match result {
          case Some(names) => r := AddInOrder(deps, names);
          case None =>
        }
      case None =>
    }
  }

  /** `parseDependencies(repo)`: every rule in the root and in each usual
      folder, then `package.json` in each sub-directory of the root; `read`
      stands for `readFile`, `parse` for `JSON.parse` and `listing` for
      `readdir` of the root. */
  method ParseDependencies(repo: string, read: string -> Option<string>, parse: string -> Json, listing: Option<seq<Entry>>)
    returns (deps: seq<string>)
    ensures deps == Gather(Probes(repo, listing), FoundBy(read, parse))
    ensures NoDup(deps)
  {
    deps := ScanDirs(SearchPaths(repo), read, parse);
    match listing {
      case None =>
        assert Probes(repo, listing) == RootProbes(SearchPaths(repo));
      case Some(entries) =>
        deps := ScanSubdirs(deps, RootProbes(SearchPaths(repo)), repo, entries, read, parse);
    }
  }

  /** The outer loop over the directories searched. */
  method ScanDirs(dirs: seq<string>, read: string -> Option<string>, parse: string -> Json)
    returns (deps: seq<string>)
    ensures deps == Gather(RootProbes(dirs), FoundBy(read, parse))
  {
    deps := [];
    for d := 0 to |dirs|
      invariant deps == Gather(RootProbes(dirs[..d]), FoundBy(read, parse))
    {
      assert dirs[..d + 1][..d] == dirs[..d];
      deps := ScanDir(deps, RootProbes(dirs[..d]), dirs[d], read, parse);
    }
    assert dirs[..|dirs|] == dirs;
  }

  /** The inner loop over the rules, for one directory. */
  method ScanDir(deps0: seq<string>, before: seq<Probe>, dir: string, read: string -> Option<string>, parse: string -> Json)
    returns (deps: seq<string>)
    requires deps0 == Gather(before, FoundBy(read, parse))
    ensures deps == Gather(before + DirProbes(dir, Manifests), FoundBy(read, parse))
  {
    deps := deps0;
    assert before + DirProbes(dir, Manifests[..0]) == before;
    for j := 0 to |Manifests|
      invariant deps == Gather(before + DirProbes(dir, Manifests[..j]), FoundBy(read, parse))
    {
      var m := Manifests[j];
      var p := Probe(Path(dir, FileName(m)), m);
      assert Manifests[..j + 1][..j] == Manifests[..j];
      assert before + DirProbes(dir, Manifests[..j + 1]) == before + DirProbes(dir, Manifests[..j]) + [p];
      GatherAppend(before + DirProbes(dir, Manifests[..j]), p, FoundBy(read, parse));
      deps := TryProbe(deps, p, read, parse);
    }
    assert Manifests[..|Manifests|] == Manifests;
  }

  /** The loop over the root's entries: `package.json` in each directory. */
  method ScanSubdirs(deps0: seq<string>, before: seq<Probe>, repo: string, entries: seq<Entry>, read: string -> Option<string>, parse: string -> Json)
    returns (deps: seq<string>)
    requires deps0 == Gather(before, FoundBy(read, parse))
    ensures deps == Gather(before + SubdirProbes(repo, entries), FoundBy(read, parse))
  {
    deps := deps0;
    assert before + SubdirProbes(repo, entries[..0]) == before;
    for e := 0 to |entries|
      invariant deps == Gather(before + SubdirProbes(repo, entries[..e]), FoundBy(read, parse))
    {
      assert entries[..e + 1][..e] == entries[..e];
      var entry := entries[e];
      if entry.isDirectory {
        var p := Probe(Path(Path(repo, entry.name), "package.json"), PackageJson);
        assert before + SubdirProbes(repo, entries[..e + 1]) == before + SubdirProbes(repo, entries[..e]) + [p];
        GatherAppend(before + SubdirProbes(repo, entries[..e]), p, FoundBy(read, parse));
        deps := TryProbe(deps, p, read, parse);
      } else {
        assert SubdirProbes(repo, entries[..e + 1]) == SubdirProbes(repo, entries[..e]);
        assert before + SubdirProbes(repo, entries[..e]) + [] == before + SubdirProbes(repo, entries[..e]);
      }
    }
    assert entries[..|entries|] == entries;
  }
}
