/** mcp_code_indexer/utils/language_utils.py: language detection by file extension. */
module LanguageUtils {
  import opened OsPath

  /** EXTENSION_TO_LANGUAGE. */
  const ExtensionToLanguage: map<string, string> := map[
    ".py" := "python", ".js" := "javascript", ".ts" := "typescript",
    ".jsx" := "javascript", ".tsx" := "typescript", ".java" := "java",
    ".c" := "c", ".cpp" := "cpp", ".h" := "c", ".hpp" := "cpp",
    ".cs" := "csharp", ".go" := "go", ".rb" := "ruby", ".php" := "php",
    ".swift" := "swift", ".kt" := "kotlin", ".rs" := "rust", ".sh" := "bash",
    ".html" := "html", ".css" := "css", ".scss" := "scss", ".sql" := "sql",
    ".md" := "markdown", ".json" := "json", ".xml" := "xml",
    ".yaml" := "yaml", ".yml" := "yaml", ".toml" := "toml", ".vue" := "vue"
  ]

  /** SINGLE_LINE_COMMENT_MARKERS. */
  const SingleLineCommentMarkers: map<string, seq<string>> := map[
    "python" := ["#"], "javascript" := ["//"], "typescript" := ["//"],
    "java" := ["//"], "c" := ["//"], "cpp" := ["//"], "csharp" := ["//"],
    "php" := ["//"], "ruby" := ["#"], "go" := ["//"], "rust" := ["//"],
    "swift" := ["//"], "kotlin" := ["//", "#"]
  ]

  /** `get_language_from_extension`: the table's language for the lowercased
      path's extension; "text" when the extension is missing or unknown. */
  function GetLanguageFromExtension(filePath: string): (r: string)
    ensures SplitExt(Lower(filePath)).1 in ExtensionToLanguage ==> r == ExtensionToLanguage[SplitExt(Lower(filePath)).1]
    ensures SplitExt(Lower(filePath)).1 !in ExtensionToLanguage ==> r == "text"
    ensures r == "text" || r in GetSupportedLanguages()
  {
    var ext := SplitExt(Lower(filePath)).1;
    if ext in ExtensionToLanguage then ExtensionToLanguage[ext] else "text"
  }

  /** `get_comment_markers`: the table's markers, or both "#" and "//" for a
      language the table does not list. */
  function GetCommentMarkers(language: string): (r: seq<string>)
    ensures language !in SingleLineCommentMarkers ==> r == ["#", "//"]
    ensures language in SingleLineCommentMarkers ==> r == SingleLineCommentMarkers[language]
    ensures r != []
  {
    if language in SingleLineCommentMarkers then SingleLineCommentMarkers[language] else ["#", "//"]
  }

  /** `get_supported_languages`: exactly the languages the table maps to. */
  function GetSupportedLanguages(): (r: set<string>)
    ensures forall l :: l in r <==> exists e :: e in ExtensionToLanguage && ExtensionToLanguage[e] == l
  {
    ExtensionToLanguage.Values
  }

  /** `get_supported_extensions`: exactly the table's extensions. */
  function GetSupportedExtensions(): (r: set<string>)
    ensures forall e :: e in r <==> e in ExtensionToLanguage
  {
    ExtensionToLanguage.Keys
  }

  /** Case does not matter: a path and its lowercase form get the same language. */
  lemma LanguageIgnoresCase(filePath: string)
    ensures GetLanguageFromExtension(filePath) == GetLanguageFromExtension(Lower(filePath))
  {
    LowerIdempotent(filePath);
  }

  /** A path without an extension, or with one the table lacks, is "text";
      "text" is not itself a supported language, so the default is unambiguous. */
  lemma UnknownIsText(filePath: string)
    requires SplitExt(Lower(filePath)).1 == "" || SplitExt(Lower(filePath)).1 !in GetSupportedExtensions()
    ensures GetLanguageFromExtension(filePath) == "text"
    ensures "text" !in GetSupportedLanguages()
  {
    assert "" !in ExtensionToLanguage;
  }

  /** Both YAML spellings give "yaml". */
  lemma YamlSpellings()
    ensures GetLanguageFromExtension("config.yml") == "yaml"
    ensures GetLanguageFromExtension("config.yaml") == "yaml"
  {
    assert Lower("config.yml") == "config.yml";
    RFindIs("config.yml", '.', 6);
    RFindIs("config.yml", '/', -1);
    assert "config.yml"[0] != '.' && "config.yml"[6..] == ".yml";
    assert Lower("config.yaml") == "config.yaml";
    RFindIs("config.yaml", '.', 6);
    RFindIs("config.yaml", '/', -1);
    assert "config.yaml"[0] != '.' && "config.yaml"[6..] == ".yaml";
    assert ExtensionToLanguage[".yml"] == "yaml" && ExtensionToLanguage[".yaml"] == "yaml";
  }

  /** An upper-case extension is recognised. */
  lemma UpperCaseExample()
    ensures GetLanguageFromExtension("src/Main.PY") == "python"
  {
    assert Lower("src/Main.PY") == "src/main.py";
    MainPyExt();
    assert ExtensionToLanguage[".py"] == "python";
  }

  /** The extension of "src/main.py" is ".py". */
  lemma MainPyExt()
    ensures SplitExt("src/main.py").1 == ".py"
  {
    RFindIs("src/main.py", '.', 8);
    RFindIs("src/main.py", '/', 3);
    assert "src/main.py"[4] != '.' && "src/main.py"[8..] == ".py";
  }

  /** No extension, or only a leading dot, gives "text". */
  lemma NoExtensionExamples()
    ensures GetLanguageFromExtension("Makefile") == "text"
    ensures GetLanguageFromExtension(".bashrc") == "text"
  {
    assert Lower("Makefile") == "makefile";
    RFindIs("makefile", '.', -1);
    assert Lower(".bashrc") == ".bashrc";
    RFindIs(".bashrc", '.', 0);
    RFindIs(".bashrc", '/', -1);
  }
}
