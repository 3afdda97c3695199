/** The computed properties of the contest site's champions and matches,
    after prologin/concours/stechec/models.py: where a champion and a match
    live on disk, the removal of terminal colour codes from logs, the
    language record of a champion, the filter that picks which of its
    files are shown as sources, and its count of source lines. Paths are
    sequences of components; the extracted tarball is a parameter. */
module StechecModels {
  import opened Common
  import opened Dicts
  import MasterTask

  type Path = seq<string>

  // ---------------------------------------------------------------------
  // Directories

  datatype DirError = Unsaved

  /** `Champion.directory`: refused for a champion that has no id yet. */
  function ChampionDirectory(root: Path, contest: string, username: string, id: Option<nat>)
    : (r: Result<Path, DirError>)
    ensures r.Err? <==> id.None?
    ensures r.Ok? ==> |r.value| == |root| + 4 && r.value[..|root|] == root && r.value[|root|..] == [contest, "champions", username, NatToString(id.value)]
  {
    match id
    case None => Err(Unsaved)
    case Some(n) => Ok(root + [contest, "champions", username, NatToString(n)])
  }

  /** Two saved champions of the same author in the same contest get the
      same directory only when they are the same champion. */
  lemma ChampionDirectoryInjective(root: Path, contest: string, username: string, a: nat, b: nat)
    requires ChampionDirectory(root, contest, username, Some(a)) == ChampionDirectory(root, contest, username, Some(b))
    ensures a == b
  {
    var pa := ChampionDirectory(root, contest, username, Some(a)).value;
    var pb := ChampionDirectory(root, contest, username, Some(b)).value;
    assert pa[|root| + 3] == NatToString(a) && pb[|root| + 3] == NatToString(b);
    NatToStringInjective(a, b);
  }

  /** `Match.directory`: the thousands of the id, then the id modulo 1000,
      each written with at least three digits. */
  function MatchDirectory(root: Path, contest: string, id: nat): (r: Path)
    ensures |r| == |root| + 4 && r[..|root|] == root && r[|root|..|root| + 2] == [contest, "matches"]
    ensures AllDigits(r[|root| + 2]) && DigitsValue(r[|root| + 2]) == id / 1000 && |r[|root| + 2]| >= 3
    ensures AllDigits(r[|root| + 3]) && DigitsValue(r[|root| + 3]) == id % 1000 && |r[|root| + 3]| == 3
  {
    root + [contest, "matches", Pad3(id / 1000), Pad3(id % 1000)]
  }

  /** Two matches share a directory only when they are the same match. */
  lemma MatchDirectoryInjective(root: Path, contest: string, a: nat, b: nat)
    requires MatchDirectory(root, contest, a) == MatchDirectory(root, contest, b)
    ensures a == b
  {
    var pa := MatchDirectory(root, contest, a);
    var pb := MatchDirectory(root, contest, b);
    assert pa[|root| + 2] == pb[|root| + 2] && pa[|root| + 3] == pb[|root| + 3];
    assert a == a / 1000 * 1000 + a % 1000;
    assert b == b / 1000 * 1000 + b % 1000;
  }

  /** The site looks for a match where the master node's worker writes it:
      under a root directory, the two paths are the same. */
  lemma MatchDirectoryAgrees(directory: string, contest: string, id: nat)
    ensures MatchDirectory([directory], contest, id) == MasterTask.MatchPath(directory, contest, id)
  {
  }

  // ---------------------------------------------------------------------
  // Terminal colour codes

  const Esc: char := 27 as char

  /** The length of the `\033[...m` code at the start of `s`, the dots not
      crossing a newline, the first `m` ending it; none when `s` does not
      start with one. */
  function CodeLength(s: string): (r: Option<nat>)
    ensures r.Some? ==> 3 <= r.value <= |s| && s[0] == Esc && s[1] == '[' && s[r.value - 1] == 'm'
    ensures r.Some? ==> forall k :: 2 <= k < r.value - 1 ==> s[k] != 'm' && s[k] != '\n'
    ensures r.None? && |s| >= 2 && s[0] == Esc && s[1] == '[' ==>
      forall k :: 2 <= k < |s| && s[k] == 'm' ==> exists j :: 2 <= j < k && s[j] == '\n'
  {
    if |s| >= 2 && s[0] == Esc && s[1] == '[' then CodeEnd(s, 2) else None
  }

  /** The end of a code whose body is scanned from `k`. */
  function CodeEnd(s: string, k: nat): (r: Option<nat>)
    requires 2 <= k <= |s|
    ensures r.Some? ==> k < r.value <= |s| && s[r.value - 1] == 'm'
    ensures r.Some? ==> forall j :: k <= j < r.value - 1 ==> s[j] != 'm' && s[j] != '\n'
    ensures r.None? ==> forall j :: k <= j < |s| && s[j] == 'm' ==> exists i :: k <= i < j && s[i] == '\n'
    decreases |s| - k
  {
    if k == |s| || s[k] == '\n' then None
    else if s[k] == 'm' then Some(k + 1)
    else CodeEnd(s, k + 1)
  }

  /** `strip_ansi_codes`: one left-to-right pass of `re.sub`, each code
      dropped where it starts, every other character kept. */
  function StripAnsi(s: string): (r: string)
    ensures |r| <= |s|
    decreases |s|
  {
    if s == [] then []
    else match CodeLength(s)
      case Some(n) => StripAnsi(s[n..])
      case None => [s[0]] + StripAnsi(s[1..])
  }

  /** Text without an escape character comes out unchanged. */
  lemma {:induction false} StripAnsiPlain(s: string)
    requires Esc !in s
    ensures StripAnsi(s) == s
    decreases |s|
  {
    if s != [] {
      assert s[0] in s;
      assert forall c :: c in s[1..] ==> c in s;
      StripAnsiPlain(s[1..]);
    }
  }

  /** Text without an escape character in front of the rest is kept as
      is, and the rest is stripped on its own. */
  lemma {:induction false} StripAnsiPlainPrefix(a: string, b: string)
    requires Esc !in a
    ensures StripAnsi(a + b) == a + StripAnsi(b)
    decreases |a|
  {
    if a != [] {
      var s := a + b;
      assert a[0] in a;
      assert s[0] == a[0] != Esc;
      assert CodeLength(s) == None;
      assert StripAnsi(s) == [a[0]] + StripAnsi(s[1..]);
      assert s[1..] == a[1..] + b;
      assert Esc !in a[1..] by {
        assert forall c :: c in a[1..] ==> c in a;
      }
      StripAnsiPlainPrefix(a[1..], b);
      assert a == [a[0]] + a[1..];
    } else {
      assert a + b == b;
    }
  }

  /** A complete code in front is dropped whole. */
  lemma StripAnsiCode(body: string, b: string)
    requires 'm' !in body && '\n' !in body
    ensures StripAnsi([Esc, '['] + body + ['m'] + b) == StripAnsi(b)
  {
    var s := [Esc, '['] + body + ['m'] + b;
    assert forall k :: 2 <= k < |body| + 2 ==> s[k] == body[k - 2];
    assert s[|body| + 2] == 'm';
    assert s[|body| + 3..] == b;
  }

  // ---------------------------------------------------------------------
  // Languages

  datatype LangEntry = LangEntry(name: string, color: string, exts: seq<string>)

  /** The languages table of python-lib/prologin/concours/stechec/languages.py,
      as written there: Haskell is listed with the extension ".php". */
  const Languages: seq<(string, LangEntry)> := [
    ("c", LangEntry("C", "#555555", [".c", ".h"])),
    ("cs", LangEntry("C#", "#178600", [".cs"])),
    ("cxx", LangEntry("C++", "#f34b7d", [".cxx", ".hh", ".cc", ".cpp", ".h"])),
    ("python", LangEntry("Python", "#3572a5", [".py"])),
    ("java", LangEntry("Java", "#b07219", [".java"])),
    ("rust", LangEntry("Rust", "#dea584", [".rs"])),
    ("caml", LangEntry("OCaml", "#3be133", [".ml"])),
    ("haskell", LangEntry("Haskell", "#5e5086", [".php"])),
    ("php", LangEntry("PHP", "#4f5d95", [".php"]))
  ]

  /** The same table with Haskell given its own extension ".hs". */
  const LanguagesFixed: seq<(string, LangEntry)> := Languages[..7] + [
    ("haskell", LangEntry("Haskell", "#5e5086", [".hs"])),
    ("php", LangEntry("PHP", "#4f5d95", [".php"]))
  ]

  /** The syntax highlighters by language code. */
  const Lexers: seq<(string, string)> := [
    ("c", "c"), ("cs", "cs"), ("cxx", "cpp"), ("python", "python"), ("java", "java"),
    ("rust", "rust"), ("caml", "ocaml"), ("haskell", "haskell"), ("php", "php")
  ]

  /** `Champion.language`: the stripped code read from the `_lang` file,
      the table's entry for it if any, and its highlighter, "text" for a
      code the table does not know. */
  datatype LanguageInfo = LanguageInfo(code: string, entry: Option<LangEntry>, lexer: string)

  function Language(langFile: string): LanguageInfo
  {
    LanguageOf(Strip(langFile))
  }

  function LanguageOf(code: string): LanguageInfo
  {
    LanguageInfo(code, Lookup(Languages, code),
                 match Lookup(Lexers, code) case Some(l) => l case None => "text")
  }

  /** The codes both tables know. */
  const Codes: seq<string> := ["c", "cs", "cxx", "python", "java", "rust", "caml", "haskell", "php"]

  /** Every code of the table has an entry and a highlighter of its own;
      any other code has no entry and is highlighted as plain text. */
  lemma LanguageFallback(code: string)
    ensures var info := LanguageOf(code);
      info.code == code &&
      (code in Codes <==> info.entry.Some?) &&
      (code in Codes <==> info.lexer != "text")
  {
    TablesKnowCodes();
    if Lookup(Lexers, code).Some? {
      LookupFound(Lexers, code);
      LexersNotText();
    }
  }

  lemma TablesKnowCodes()
    ensures Keys(Languages) == Codes && Keys(Lexers) == Codes
  {
  }

  lemma LexersNotText()
    ensures forall i :: 0 <= i < |Lexers| ==> Lexers[i].1 != "text"
  {
  }

  /** A value found in a table is that of one of its entries. */
  lemma {:induction false} LookupFound<V>(d: Dict<string, V>, k: string)
    requires Lookup(d, k).Some?
    ensures exists i :: 0 <= i < |d| && d[i] == (k, Lookup(d, k).value)
  {
    if d[0].0 != k {
      LookupFound(d[1..], k);
      var i :| 0 <= i < |d[1..]| && d[1..][i] == (k, Lookup(d, k).value);
      assert d[i + 1] == d[1..][i];
    }
  }

  // ---------------------------------------------------------------------
  // Sources

  /** Every extension of the table. */
  function Extensions(table: seq<(string, LangEntry)>): (r: seq<string>)
    ensures forall e :: e in r <==> exists i :: 0 <= i < |table| && e in table[i].1.exts
  {
    if table == [] then []
    else
      var init := table[..|table| - 1];
      assert forall i :: 0 <= i < |init| ==> init[i] == table[i];
      Extensions(init) + table[|table| - 1].1.exts
  }

  /** The name prefixes of the files generated for every champion. */
  const Blacklist: seq<string> := ["interface", "api", "constant", "ffi", "prologin_stub", "capi", "prologin.hh"]

  /** A file is shown as a source when its lower-cased name ends with an
      extension of the table and starts with none of the generated
      prefixes. */
  predicate Shown(table: seq<(string, LangEntry)>, name: string)
  {
    (exists e :: e in Extensions(table) && IsSuffix(e, Lower(name))) &&
    !(exists p :: p in Blacklist && IsPrefix(p, Lower(name)))
  }

  /** One entry of the extracted tarball. */
  datatype DirEntry = DirEntry(name: string, isFile: bool, contents: string)

  /** The sources by file name: the shown files, in the order of the
      directory. */
  function SourcesOf(table: seq<(string, LangEntry)>, entries: seq<DirEntry>): (r: Dict<string, string>)
    ensures UniqueKeys(r)
  {
    if entries == [] then []
    else
      var d := SourcesOf(table, entries[..|entries| - 1]);
      var e := entries[|entries| - 1];
      if e.isFile && Shown(table, e.name) then Put(d, e.name, e.contents) else d
  }

  /** A name is a source exactly when some entry with that name is a shown
      file, and its contents are those of the last such entry. */
  lemma {:induction false} SourcesOfLookup(table: seq<(string, LangEntry)>, entries: seq<DirEntry>, name: string)
    ensures Lookup(SourcesOf(table, entries), name).Some? <==>
      exists i :: 0 <= i < |entries| && entries[i].name == name && entries[i].isFile && Shown(table, name)
    ensures Lookup(SourcesOf(table, entries), name).Some? ==>
      exists i :: 0 <= i < |entries| && entries[i].name == name && entries[i].isFile &&
        Lookup(SourcesOf(table, entries), name).value == entries[i].contents
  {
    if entries != [] {
      var init := entries[..|entries| - 1];
      SourcesOfLookup(table, init, name);
      assert forall i :: 0 <= i < |init| ==> init[i] == entries[i];
    }
  }

  /** `source_contents`: the loop over the extracted files. */
  method SourceContents(table: seq<(string, LangEntry)>, entries: seq<DirEntry>) returns (sources: Dict<string, string>)
    ensures sources == SourcesOf(table, entries)
  {
    sources := [];
    var i := 0;
    while i < |entries|
      invariant 0 <= i <= |entries|
      invariant sources == SourcesOf(table, entries[..i])
    {
      assert entries[..i + 1][..i] == entries[..i];
      var e := entries[i];
      if !e.isFile {
        i := i + 1;
        continue;
      }
      if !Shown(table, e.name) {
        i := i + 1;
        continue;
      }
      sources := Put(sources, e.name, e.contents);
      i := i + 1;
    }
    assert entries[..i] == entries;
  }

  /** As written, a Haskell champion's `main.hs` is not shown. */
  lemma HaskellSourceHidden()
    ensures !Shown(Languages, "main.hs")
    ensures Lookup(SourcesOf(Languages, [DirEntry("main.hs", true, "main = pure ()")]), "main.hs").None?
  {
    var name := Lower("main.hs");
    assert name == "main.hs";
    forall e | e in Extensions(Languages)
      ensures !IsSuffix(e, name)
    {
      var i :| 0 <= i < |Languages| && e in Languages[i].1.exts;
      assert name[|name| - 3..] == ".hs";
      assert name[|name| - 2..] == "hs";
    }
    assert SourcesOf(Languages, [DirEntry("main.hs", true, "main = pure ()")]) == [];
  }

  /** With Haskell's extension corrected, its sources are shown, and every
      file the table as written shows is still shown. */
  lemma HaskellSourceShown(name: string)
    ensures Shown(LanguagesFixed, "main.hs")
    ensures Shown(Languages, name) ==> Shown(LanguagesFixed, name)
  {
    var ext := ".hs";
    assert ext in Extensions(LanguagesFixed) by {
      assert LanguagesFixed[7].1.exts == [ext];
    }
    assert IsSuffix(ext, Lower("main.hs")) by {
      assert Lower("main.hs") == "main.hs";
    }
    var lower := Lower("main.hs");
    assert lower[0] == 'm';
    forall p | p in Blacklist
      ensures !IsPrefix(p, lower)
    {
      assert p[0] != 'm';
    }
    if Shown(Languages, name) {
      var e :| e in Extensions(Languages) && IsSuffix(e, Lower(name));
      var i :| 0 <= i < |Languages| && e in Languages[i].1.exts;
      if i == 7 {
        assert e in LanguagesFixed[8].1.exts;
      } else {
        assert e in LanguagesFixed[i].1.exts;
      }
    }
  }

  // ---------------------------------------------------------------------
  // Lines of code

  /** The non-empty lines of a text. */
  function NonEmptyLines(lines: seq<string>): (r: nat)
    ensures r <= |lines|
  {
    if lines == [] then 0
    else NonEmptyLines(lines[..|lines| - 1]) + (if lines[|lines| - 1] != [] then 1 else 0)
  }

  /** The newlines over all sources. */
  function Newlines(sources: Dict<string, string>): nat
  {
    if sources == [] then 0
    else Newlines(sources[..|sources| - 1]) + multiset(sources[|sources| - 1].1)['\n']
  }

  /** `sloc`: the non-empty lines over all sources; each source counts at
      most one line more than its newlines, and a source's own count is
      part of the total. */
  function Sloc(sources: Dict<string, string>): (r: nat)
    ensures r <= Newlines(sources) + |sources|
    ensures forall i :: 0 <= i < |sources| ==> NonEmptyLines(Split(sources[i].1, '\n')) <= r
  {
    if sources == [] then 0
    else
      var init := sources[..|sources| - 1];
      LinesBound(sources[|sources| - 1].1);
      assert forall i :: 0 <= i < |init| ==> init[i] == sources[i];
      Sloc(init) + NonEmptyLines(Split(sources[|sources| - 1].1, '\n'))
  }

  /** A text has at most one more non-empty line than it has newlines;
      a text without newline is one line, empty or not. */
  lemma {:induction false} LinesBound(s: string)
    ensures NonEmptyLines(Split(s, '\n')) <= multiset(s)['\n'] + 1
    ensures '\n' !in s ==> NonEmptyLines(Split(s, '\n')) == (if s == [] then 0 else 1)
    decreases |s|
  {
    if '\n' in s {
      var k := Find(s, '\n');
      var rest := s[k + 1..];
      LinesBound(rest);
      assert Split(s, '\n') == [s[..k]] + Split(rest, '\n');
      NonEmptyLinesCons(s[..k], Split(rest, '\n'));
      NewlineCount(s, k);
    } else {
      assert multiset(s)['\n'] == 0;
    }
  }

  /** The first newline of a text adds one to the count of the rest. */
  lemma NewlineCount(s: string, k: nat)
    requires k < |s| && s[k] == '\n' && '\n' !in s[..k]
    ensures multiset(s)['\n'] == multiset(s[k + 1..])['\n'] + 1
  {
    assert s == s[..k] + ['\n'] + s[k + 1..];
    assert multiset(s[..k])['\n'] == 0;
  }

  lemma {:induction false} NonEmptyLinesCons(x: string, rest: seq<string>)
    ensures NonEmptyLines([x] + rest) == (if x != [] then 1 else 0) + NonEmptyLines(rest)
    decreases |rest|
  {
    if rest != [] {
      var init := rest[..|rest| - 1];
      assert ([x] + rest)[..|[x] + rest| - 1] == [x] + init;
      NonEmptyLinesCons(x, init);
    } else {
      assert [x] + rest == [x];
      assert [x][..0] == [];
    }
  }

  /** The count over several sources is the sum of their counts. */
  lemma {:induction false} SlocAppend(a: Dict<string, string>, b: Dict<string, string>)
    ensures Sloc(a + b) == Sloc(a) + Sloc(b)
  {
    if b != [] {
      assert (a + b)[..|a + b| - 1] == a + b[..|b| - 1];
      assert (a + b)[|a + b| - 1] == b[|b| - 1];
      SlocAppend(a, b[..|b| - 1]);
    } else {
      assert a + b == a;
    }
  }
}
