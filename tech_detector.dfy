/** `TechDetector` (src/tech-detector/tech-detector.ts): gathers the
    repository's dependency names and the languages of its files, keeps the
    ones the technology lookup recognises, turns them into topics and hands
    them to the topics manager. The lookup service and the file system are
    replaced by values: an oracle from a name to the outcome of the lookup,
    and a directory tree. */
module TechDetector {
  import opened Wrappers
  import opened Seqs
  import opened Text
  import opened Tags
  import DependencyParser
  import GitHubTopics

  // ---------------------------------------------------------------------
  // normalizeTopic
  // ---------------------------------------------------------------------

  /** The class `[.@]`, the characters replaced by `-`. */
  predicate IsDotOrAt(c: char) { c == '.' || c == '@' }

  /** The longest topic `normalizeTopic` keeps. */
  const TopicLength := 50

  /** The replace chain of `normalizeTopic`, before the cut to fifty
      characters. */
  function Cleaned(name: string): (t: string)
    ensures IsTagShaped(t)
  {
    var hyphenated := Hyphenate(Lower(name), IsDotOrAt);
    CleanShape(hyphenated);
    TrimHyphens(CollapseHyphens(KeepTagChars(hyphenated)))
  }

  /** `normalizeTopic`: the cleaned name, cut after fifty characters. */
  function NormalizeTopic(name: string): (topic: string)
    ensures |topic| <= TopicLength
    ensures AllTagChars(topic) && NoDoubleHyphen(topic)
    ensures topic != [] ==> topic[0] != '-'
  {
    var t := Cleaned(name);
    if |t| <= TopicLength then t else t[..TopicLength]
  }

  /** The first stages leave a string of topic characters unchanged. */
  lemma TopicStagesFixed(t: string)
    requires AllTagChars(t)
    ensures Lower(t) == t
    ensures Hyphenate(t, IsDotOrAt) == t
  {
    assert NoUpper(t) by {
      forall i | 0 <= i < |t| ensures !IsUpper(t[i]) { assert IsTagChar(t[i]); }
    }
    LowerFixed(t);
    var h := Hyphenate(t, IsDotOrAt);
    forall i | 0 <= i < |t| ensures h[i] == t[i] { assert IsTagChar(t[i]); }
  }

  /** A tag-shaped name is only cut: its topic is its first fifty
      characters. */
  lemma TagShapedTopic(t: string)
    requires IsTagShaped(t)
    ensures NormalizeTopic(t) == if |t| <= TopicLength then t else t[..TopicLength]
  {
    TopicStagesFixed(t);
    CleanFixed(t);
  }

  /** The cut can leave a trailing hyphen: a tag-shaped name with a hyphen
      at position fifty keeps it. */
  lemma CutAfterHyphen(a: string, b: string)
    requires |a| == TopicLength - 1 && b != []
    requires IsTagShaped(a + "-" + b)
    ensures NormalizeTopic(a + "-" + b) == a + "-"
    ensures NormalizeTopic(a + "-" + b)[TopicLength - 1] == '-'
  {
    TagShapedTopic(a + "-" + b);
    assert (a + "-" + b)[..TopicLength] == a + "-";
  }

  /** Normalising a topic again drops a trailing hyphen left by the cut and
      changes nothing else, so the third normalisation equals the second. */
  lemma TopicRenormalized(name: string)
    ensures var topic := NormalizeTopic(name);
      NormalizeTopic(topic) ==
        if topic != [] && topic[|topic| - 1] == '-' then topic[..|topic| - 1] else topic
    ensures NormalizeTopic(NormalizeTopic(NormalizeTopic(name))) == NormalizeTopic(NormalizeTopic(name))
  {
    var topic := NormalizeTopic(name);
    var trimmed := if topic != [] && topic[|topic| - 1] == '-' then topic[..|topic| - 1] else topic;
    TopicStagesFixed(topic);
    assert KeepTagChars(topic) == topic;
    assert CollapseHyphens(topic) == topic;
    assert TrimHyphens(topic) == trimmed;
    assert Cleaned(topic) == trimmed;
    assert NormalizeTopic(topic) == trimmed;
    assert IsTagShaped(trimmed);
    TagShapedTopic(trimmed);
  }

  /** A name made only of dots and `@` signs has the empty topic. */
  lemma {:induction false} OnlyHyphens(s: string)
    requires forall i | 0 <= i < |s| :: s[i] == '-'
    ensures CollapseHyphens(s) == if s == [] then [] else "-"
    decreases |s|
  {
    if |s| >= 2 {
      OnlyHyphens(s[1..]);
    }
  }

  lemma EmptyTopic(name: string)
    requires forall i | 0 <= i < |name| :: IsDotOrAt(name[i])
    ensures NormalizeTopic(name) == ""
  {
    var h := Hyphenate(Lower(name), IsDotOrAt);
    assert forall i | 0 <= i < |h| :: h[i] == '-';
    assert AllTagChars(h);
    OnlyHyphens(h);
  }

  // ---------------------------------------------------------------------
  // getAllFiles
  // ---------------------------------------------------------------------

  /** An entry of a directory listing: a directory carries its own listing,
      `None` when reading it throws; any other entry counts as a file. */
  datatype Node = File(name: string) | Dir(name: string, listing: Option<seq<Node>>)

  /** A path as its components: `path.join(dir, name)` is `dir + [name]`. */
  type Path = seq<string>

  /** The deepest level `getAllFiles` still reads. */
  const MaxDepth := 3

  /** Hidden entries and `node_modules`, `dist`, `build` are passed over. */
  predicate Skipped(name: string) {
    StartsWith(name, ".") || name == "node_modules" || name == "dist" || name == "build"
  }

  /** `f` lies under `dir`, passes through no skipped entry and at most
      `MaxDepth - depth` directories below `dir`. */
  predicate Below(dir: Path, f: Path, depth: nat) {
    |dir| < |f| && |f| + depth <= |dir| + MaxDepth + 1 && f[..|dir|] == dir
    && forall k | |dir| <= k < |f| :: !Skipped(f[k])
  }

  /** The files `getAllFiles(dir, [], depth)` lists, depth first in listing
      order. */
  function Walk(dir: Path, listing: Option<seq<Node>>, depth: nat): (files: seq<Path>)
    ensures forall f | f in files :: Below(dir, f, depth)
    decreases MaxDepth + 1 - depth, 1, 0
  {
    if depth > MaxDepth then []
    else match listing
      case None => []
      case Some(entries) => WalkEntries(dir, entries, depth)
  }

  /** The files found through `entries`, the listing of `dir`. */
  function WalkEntries(dir: Path, entries: seq<Node>, depth: nat): (files: seq<Path>)
    requires depth <= MaxDepth
    ensures forall f | f in files :: Below(dir, f, depth)
    decreases MaxDepth + 1 - depth, 0, |entries|
  {
    if entries == [] then []
    else
      var files := WalkEntries(dir, entries[..|entries| - 1], depth);
      var e := entries[|entries| - 1];
      if Skipped(e.name) then files
      else match e
        case File(name) => files + [dir + [name]]
        case Dir(name, listing) =>
          var inner := Walk(dir + [name], listing, depth + 1);
          assert forall f | f in inner :: f[..|dir|] == (dir + [name])[..|dir|] && f[|dir|] == name;
          files + inner
  }

  /** What a directory entry contributes. */
  predicate Contributes(dir: Path, e: Node, depth: nat, f: Path)
    requires depth <= MaxDepth
  {
    !Skipped(e.name)
    && match e
       case File(name) => f == dir + [name]
       case Dir(name, listing) => f in Walk(dir + [name], listing, depth + 1)
  }

  /** A file is listed through `entries` exactly when one of the entries
      contributes it. */
  lemma {:induction false} WalkEntriesMembers(dir: Path, entries: seq<Node>, depth: nat, f: Path)
    requires depth <= MaxDepth
    ensures f in WalkEntries(dir, entries, depth) <==>
      exists i | 0 <= i < |entries| :: Contributes(dir, entries[i], depth, f)
    decreases |entries|
  {
    if entries != [] {
      var init := entries[..|entries| - 1];
      WalkEntriesMembers(dir, init, depth, f);
      assert forall i | 0 <= i < |init| :: init[i] == entries[i];
      if f in WalkEntries(dir, entries, depth) && f !in WalkEntries(dir, init, depth) {
        assert Contributes(dir, entries[|entries| - 1], depth, f);
      }
    }
  }

  /** `getAllFiles(dir, fileList, depth)`: appends the files under `dir` to
      `fileList`, reading no directory deeper than `MaxDepth`; a directory
      that cannot be read adds nothing. */
  method GetAllFiles(dir: Path, listing: Option<seq<Node>>, fileList: seq<Path>, depth: nat)
    returns (files: seq<Path>)
    ensures files == fileList + Walk(dir, listing, depth)
    decreases MaxDepth + 1 - depth, 1
  {
    if depth > MaxDepth {
      return fileList;
    }
    files := fileList;
    match listing {
      case None =>
      case Some(entries) =>
        for i := 0 to |entries|
          invariant files == fileList + WalkEntries(dir, entries[..i], depth)
        {
          assert entries[..i + 1][..i] == entries[..i];
          var e := entries[i];
          if !Skipped(e.name) {
            match e {
              case Dir(name, children) =>
                files := GetAllFiles(dir + [name], children, files, depth + 1);
              case File(name) =>
                files := files + [dir + [name]];
            }
          }
        }
        assert entries[..|entries|] == entries;
    }
  }

  // ---------------------------------------------------------------------
  // detectLanguages
  // ---------------------------------------------------------------------

  /** `languageExtensions`: lower-case extension to language. */
  const LanguageExtensions: map<string, string> := map[
    ".ts" := "typescript", ".tsx" := "typescript", ".js" := "javascript",
    ".jsx" := "javascript", ".py" := "python", ".java" := "java", ".c" := "c",
    ".cpp" := "cpp", ".cs" := "csharp", ".php" := "php", ".rb" := "ruby",
    ".go" := "go", ".rs" := "rust", ".swift" := "swift", ".kt" := "kotlin",
    ".scala" := "scala", ".sh" := "bash", ".html" := "html", ".css" := "css",
    ".scss" := "scss", ".vue" := "vue", ".json" := "json", ".xml" := "xml",
    ".yaml" := "yaml", ".yml" := "yaml", ".sql" := "sql", ".r" := "r",
    ".m" := "objc", ".groovy" := "groovy"]

  /** The position of the last `.` in `s`. */
  function LastDot(s: string): (k: Option<nat>)
    ensures k.Some? ==> k.value < |s| && s[k.value] == '.' && '.' !in s[k.value + 1..]
    ensures k.None? ==> '.' !in s
    decreases |s|
  {
    if s == [] then None
    else if s[|s| - 1] == '.' then Some(|s| - 1)
    else
      var k := LastDot(s[..|s| - 1]);
      assert s == s[..|s| - 1] + [s[|s| - 1]];
      k
  }

  /** `path.extname` of a file name: from its last dot to the end, or empty
      when there is no dot, the name starts with its only dot or the name
      is `..`. */
  function ExtName(base: string): (ext: string)
    ensures ext != [] ==> ext[0] == '.' && '.' !in ext[1..]
    ensures |ext| <= |base| && ext == base[|base| - |ext|..]
    ensures ext != [] ==> |ext| < |base|
  {
    match LastDot(base)
    case None => ""
    case Some(k) => if k == 0 || base == ".." then "" else base[k..]
  }

  /** The language of a file, from its lower-cased extension. */
  function FileLanguage(f: Path): (language: Option<string>)
    ensures language.Some? ==> language.value in LanguageExtensions.Values
  {
    if f == [] then None
    else
      var ext := Lower(ExtName(f[|f| - 1]));
      if ext in LanguageExtensions then Some(LanguageExtensions[ext]) else None
  }

  /** The languages of `files`, each once, in order of first appearance. */
  function LanguagesOf(files: seq<Path>): seq<string> {
    Dedup(Collect(files, FileLanguage))
  }

  /** A language is detected exactly when some file has it; none twice, and
      every one is a value of the table. */
  lemma LanguagesOfMeans(files: seq<Path>, language: string)
    ensures language in LanguagesOf(files) <==>
      exists i | 0 <= i < |files| :: FileLanguage(files[i]) == Some(language)
    ensures language in LanguagesOf(files) ==> language in LanguageExtensions.Values
    ensures NoDup(LanguagesOf(files))
  {
    CollectMembers(files, FileLanguage, language);
    if language in LanguagesOf(files) {
      var i :| 0 <= i < |files| && FileLanguage(files[i]) == Some(language);
    }
  }

  /** The extension is found in any letter case: `App.TSX` is TypeScript. */
  lemma ExtensionCase(dir: Path, stem: string, ext: string)
    requires stem != [] && '.' !in stem
    requires ext == ".TSX"
    ensures FileLanguage(dir + [stem + ext]) == Some("typescript")
  {
    assert ext[1..] == "TSX";
    ExtNameOf(stem, ext);
    LowerTsx(ext);
    TsxIsTypeScript();
    assert (dir + [stem + ext])[|dir|] == stem + ext;
  }

  lemma LowerTsx(ext: string)
    requires ext == ".TSX"
    ensures Lower(ext) == ".tsx"
  {
  }

  lemma TsxIsTypeScript()
    ensures ".tsx" in LanguageExtensions && LanguageExtensions[".tsx"] == "typescript"
  {
  }

  /** The extension of a dot-free stem followed by a dotted suffix is the
      suffix. */
  lemma ExtNameOf(stem: string, ext: string)
    requires stem != [] && '.' !in stem
    requires ext != [] && ext[0] == '.' && '.' !in ext[1..]
    ensures ExtName(stem + ext) == ext
  {
    var base := stem + ext;
    assert base[|stem|] == '.' && base[|stem| + 1..] == ext[1..];
    LastDotAt(base, |stem|);
    assert base != ".." by {
      assert base[0] == stem[0] && stem[0] in stem;
    }
    assert base[|stem|..] == ext;
  }

  /** Every key of the table is a dot followed by lower-case letters. */
  lemma TableKeysShaped(ext: string)
    requires ext in LanguageExtensions
    ensures |ext| >= 2 && ext[0] == '.'
    ensures forall i | 1 <= i < |ext| :: 'a' <= ext[i] <= 'z'
  {
  }

  /** Every entry of the table is reached: a file `<stem><ext>` whose stem
      has no dot is of the language the table gives `ext`. */
  lemma KnownExtension(dir: Path, stem: string, ext: string)
    requires stem != [] && '.' !in stem
    requires ext in LanguageExtensions
    ensures FileLanguage(dir + [stem + ext]) == Some(LanguageExtensions[ext])
  {
    TableKeysShaped(ext);
    assert '.' !in ext[1..] by {
      forall i | 0 <= i < |ext[1..]| ensures ext[1..][i] != '.' {
        assert ext[1..][i] == ext[i + 1];
      }
    }
    ExtNameOf(stem, ext);
    assert NoUpper(ext);
    LowerFixed(ext);
  }

  /** The last dot is the one after which no dot follows. */
  lemma LastDotAt(s: string, k: nat)
    requires k < |s| && s[k] == '.' && '.' !in s[k + 1..]
    ensures LastDot(s) == Some(k)
  {
    match LastDot(s)
    case Some(j) =>
      if j < k {
        assert s[k + 1..] == s[j + 1..][k - j..];
        assert s[j + 1..][k - j - 1] == '.';
      }
  }

  /** One more file: its language is added unless already detected. */
  lemma LanguagesStep(files: seq<Path>, i: nat)
    requires i < |files|
    ensures var found := FileLanguage(files[i]);
      LanguagesOf(files[..i + 1]) ==
        if found.Some? && found.value !in LanguagesOf(files[..i])
        then LanguagesOf(files[..i]) + [found.value]
        else LanguagesOf(files[..i])
  {
    assert files[..i + 1][..i] == files[..i];
    match FileLanguage(files[i]) {
      case Some(language) =>
        DedupSnoc(Collect(files[..i], FileLanguage), language);
      case None =>
    }
  }

  /** `detectLanguages`: the languages of the files under `root`. */
  method DetectLanguages(root: Path, tree: Option<seq<Node>>) returns (languages: seq<string>)
    ensures languages == LanguagesOf(Walk(root, tree, 0))
  {
    var files := GetAllFiles(root, tree, [], 0);
    assert files == Walk(root, tree, 0);
    languages := [];
    for i := 0 to |files|
      invariant languages == LanguagesOf(files[..i])
    {
      LanguagesStep(files, i);
      var found := FileLanguage(files[i]);
      if found.Some? && found.value !in languages {
        languages := languages + [found.value];
      }
    }
    assert files[..|files|] == files;
  }

  // ---------------------------------------------------------------------
  // detectAndTag
  // ---------------------------------------------------------------------

  /** The names to look up: the dependencies, then the languages, each
      once. */
  function Candidates(dependencies: seq<string>, languages: seq<string>): (candidates: seq<string>)
    ensures NoDup(candidates)
    ensures forall c :: c in candidates <==> c in dependencies || c in languages
  {
    Dedup(dependencies + languages)
  }

  /** Duplicate-free dependencies open the candidate list unchanged. */
  lemma DependenciesFirst(dependencies: seq<string>, languages: seq<string>)
    requires NoDup(dependencies)
    ensures |dependencies| <= |Candidates(dependencies, languages)|
    ensures Candidates(dependencies, languages)[..|dependencies|] == dependencies
  {
    AddAllConcat([], dependencies, languages);
    DedupOfNoDup(dependencies);
  }

  /** Whether a candidate is tagged, from the outcome of its lookup: a
      non-empty answer always, an empty answer or an error only with
      `includeFull`. */
  predicate Tagged(outcome: Result<nat>, includeFull: bool) {
    match outcome
    case Ok(count) => count > 0 || includeFull
    case Err => includeFull
  }

  /** The topic a candidate contributes, if any. */
  function Verdict(search: string -> Result<nat>, includeFull: bool): string -> Option<string> {
    tech => if Tagged(search(tech), includeFull) then Some(NormalizeTopic(tech)) else None
  }

  /** `uniqueTechs`: the topics of the tagged candidates, each once. */
  function TopicsFound(candidates: seq<string>, search: string -> Result<nat>, includeFull: bool): (topics: seq<string>)
    ensures NoDup(topics)
  {
    Dedup(Collect(candidates, Verdict(search, includeFull)))
  }

  /** A topic is found exactly when it is the topic of a tagged candidate. */
  lemma TopicsFoundMeans(candidates: seq<string>, search: string -> Result<nat>, includeFull: bool, topic: string)
    ensures topic in TopicsFound(candidates, search, includeFull) <==>
      exists i | 0 <= i < |candidates| ::
        Tagged(search(candidates[i]), includeFull) && topic == NormalizeTopic(candidates[i])
  {
    var verdict := Verdict(search, includeFull);
    CollectMembers(candidates, verdict, topic);
    if topic in TopicsFound(candidates, search, includeFull) {
      var i :| 0 <= i < |candidates| && verdict(candidates[i]) == Some(topic);
      assert Tagged(search(candidates[i]), includeFull) && topic == NormalizeTopic(candidates[i]);
    } else {
      forall i | 0 <= i < |candidates|
        ensures !(Tagged(search(candidates[i]), includeFull) && topic == NormalizeTopic(candidates[i]))
      {
        assert verdict(candidates[i]) != Some(topic);
      }
    }
  }

  /** With `includeFull`, every candidate is tagged, whatever the lookup
      answers. */
  lemma IncludeFullTagsAll(candidates: seq<string>, search: string -> Result<nat>, c: string)
    requires c in candidates
    ensures NormalizeTopic(c) in TopicsFound(candidates, search, true)
  {
    var i :| 0 <= i < |candidates| && candidates[i] == c;
    TopicsFoundMeans(candidates, search, true, NormalizeTopic(c));
  }

  /** Without `includeFull`, a topic is found exactly when a candidate with
      that topic got a non-empty answer; a lookup error never tags. */
  lemma StrictTagging(candidates: seq<string>, search: string -> Result<nat>, topic: string)
    ensures topic in TopicsFound(candidates, search, false) <==>
      exists i | 0 <= i < |candidates| ::
        search(candidates[i]).Ok? && search(candidates[i]).value > 0
        && topic == NormalizeTopic(candidates[i])
  {
    TopicsFoundMeans(candidates, search, false, topic);
  }

  /** Every found topic has the topic shape. */
  lemma TopicsShaped(candidates: seq<string>, search: string -> Result<nat>, includeFull: bool)
    ensures forall t | t in TopicsFound(candidates, search, includeFull) ::
      |t| <= TopicLength && AllTagChars(t) && NoDoubleHyphen(t)
  {
    forall t | t in TopicsFound(candidates, search, includeFull)
      ensures |t| <= TopicLength && AllTagChars(t) && NoDoubleHyphen(t)
    {
      TopicsFoundMeans(candidates, search, includeFull, t);
    }
  }

  /** The topics `detectAndTag` finds for a repository. */
  function RepositoryTopics(repo: string, read: string -> Option<string>, parse: string -> DependencyParser.Json,
                            listing: Option<seq<DependencyParser.Entry>>, tree: Option<seq<Node>>,
                            search: string -> Result<nat>, includeFull: bool): seq<string>
  {
    var dependencies := DependencyParser.Gather(DependencyParser.Probes(repo, listing), DependencyParser.FoundBy(read, parse));
    TopicsFound(Candidates(dependencies, LanguagesOf(Walk([repo], tree, 0))), search, includeFull)
  }

  /** The loop of `detectAndTag` over the candidates: the topic of every
      candidate the lookup tags, in candidate order. */
  method MatchCandidates(candidates: seq<string>, search: string -> Result<nat>, includeFull: bool)
    returns (matched: seq<string>)
    ensures matched == Collect(candidates, Verdict(search, includeFull))
  {
    var verdict := Verdict(search, includeFull);
    matched := [];
    for i := 0 to |candidates|
      invariant matched == Collect(candidates[..i], verdict)
    {
      assert candidates[..i + 1][..i] == candidates[..i];
      var tech := candidates[i];
      var outcome := search(tech);
      if Tagged(outcome, includeFull) {
        matched := matched + [NormalizeTopic(tech)];
      }
    }
    assert candidates[..|candidates|] == candidates;
  }

  /** `detectAndTag`: `read`, `parse` and `listing` stand for the file
      system as the dependency parser sees it, `tree` for the directory tree
      the language walk reads, `search` for the lookup service, and
      `current` and `replaceFails` for the two GitHub calls. `completed` is
      false when the call rejects; `sent` is the topic list written. When no
      topic is found, the topics manager is not called. */
  method DetectAndTag(repo: string, read: string -> Option<string>, parse: string -> DependencyParser.Json,
                      listing: Option<seq<DependencyParser.Entry>>, tree: Option<seq<Node>>,
                      search: string -> Result<nat>, includeFull: bool,
                      current: Result<seq<string>>, replaceFails: bool)
    returns (completed: bool, sent: Option<seq<string>>)
    ensures var topics := RepositoryTopics(repo, read, parse, listing, tree, search, includeFull);
      && (topics == [] ==> completed && sent == None)
      && (topics != [] ==> completed == current.Ok?)
      && (topics != [] && current.Ok? ==> sent == Some(GitHubTopics.TopicsToWrite(current.value, topics)))
      && (current.Err? ==> sent == None)
  {
    var dependencies := DependencyParser.ParseDependencies(repo, read, parse, listing);
    var languages := DetectLanguages([repo], tree);
    var candidates := Candidates(dependencies, languages);
    var matched := MatchCandidates(candidates, search, includeFull);
    assert Dedup(matched) == RepositoryTopics(repo, read, parse, listing, tree, search, includeFull);
    var unique := Dedup(matched);
    if unique == [] {
      return true, None;
    }
    completed, sent := GitHubTopics.UpdateTopics(current, unique, replaceFails);
  }
}
