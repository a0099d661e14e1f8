/** scripts/update_env.py: the line-rewriting step of `update_env_file`,
    from the text of the existing `.env` file (empty when there is none) to
    the text written back. */
module UpdateEnv {
  import opened Wrappers
  import opened OsPath

  /** `api_vars`, in dict order. */
  const ApiVars: seq<(string, string)> := [("MCP_EMBEDDING_ENGINE", "api"), ("MCP_EMBEDDING_PROVIDER", "deepinfra")]

  const Header: string := "# API Embedding Configuration"

  function ApiValue(key: string): (r: Option<string>)
    ensures r.Some? <==> exists i :: 0 <= i < |ApiVars| && ApiVars[i].0 == key
    ensures forall i :: 0 <= i < |ApiVars| && ApiVars[i].0 == key ==> r == Some(ApiVars[i].1)
  {
    if key == ApiVars[0].0 then Some(ApiVars[0].1)
    else if key == ApiVars[1].0 then Some(ApiVars[1].1)
    else None
  }

  /** The characters at which `str.splitlines` breaks a line. */
  predicate IsLineBreak(c: char) {
    c == '\n' || c == '\r' || c == '\U{0B}' || c == '\U{0C}' || c == '\U{1C}' || c == '\U{1D}' ||
    c == '\U{1E}' || c == '\U{85}' || c == '\U{2028}' || c == '\U{2029}'
  }

  /** The characters `str.strip` removes (`str.isspace`). */
  predicate IsSpace(c: char) {
    c == ' ' || c == '\t' || IsLineBreak(c) || c == '\U{1F}' || c == '\U{A0}' || c == '\U{1680}' ||
    ('\U{2000}' <= c <= '\U{200A}') || c == '\U{202F}' || c == '\U{205F}' || c == '\U{3000}'
  }

  function FirstBreak(s: string): (r: nat)
    ensures r <= |s|
    ensures r < |s| ==> IsLineBreak(s[r])
    ensures forall k :: 0 <= k < r ==> !IsLineBreak(s[k])
  {
    if s == [] || IsLineBreak(s[0]) then 0 else 1 + FirstBreak(s[1..])
  }

  /** `str.splitlines()`: lines without their terminators; "\r\n" ends one
      line, and a final terminator does not start an empty line. */
  function SplitLines(s: string): (r: seq<string>)
    ensures forall l, k :: l in r && 0 <= k < |l| ==> !IsLineBreak(l[k])
    ensures s == [] <==> r == []
    decreases |s|
  {
    if s == [] then []
    else
      var i := FirstBreak(s);
      if i == |s| then [s]
      else
        var next := if s[i] == '\r' && i + 1 < |s| && s[i + 1] == '\n' then i + 2 else i + 1;
        [s[..i]] + SplitLines(s[next..])
  }

  function TrimLeft(s: string): (r: string)
    ensures |r| <= |s| && r == s[|s| - |r|..]
    ensures r == [] || !IsSpace(r[0])
  {
    if s != [] && IsSpace(s[0]) then TrimLeft(s[1..]) else s
  }

  function TrimRight(s: string): (r: string)
    ensures |r| <= |s| && r == s[..|r|]
    ensures r == [] || !IsSpace(r[|r| - 1])
  {
    if s != [] && IsSpace(s[|s| - 1]) then TrimRight(s[..|s| - 1]) else s
  }

  /** `str.strip()`. */
  function Strip(s: string): (r: string)
    ensures r == [] || (!IsSpace(r[0]) && !IsSpace(r[|r| - 1]))
  {
    TrimRight(TrimLeft(s))
  }

  /** Only whitespace is cut off on the left. */
  lemma {:induction false} TrimLeftCutsSpace(s: string)
    ensures forall k :: 0 <= k < |s| - |TrimLeft(s)| ==> IsSpace(s[k])
  {
    if s != [] && IsSpace(s[0]) {
      TrimLeftCutsSpace(s[1..]);
      forall k | 1 <= k < |s| - |TrimLeft(s)| ensures IsSpace(s[k]) {
        assert s[k] == s[1..][k - 1];
      }
    }
  }

  /** Only whitespace is cut off on the right. */
  lemma {:induction false} TrimRightCutsSpace(s: string)
    ensures forall k :: |TrimRight(s)| <= k < |s| ==> IsSpace(s[k])
  {
    if s != [] && IsSpace(s[|s| - 1]) {
      TrimRightCutsSpace(s[..|s| - 1]);
      forall k | |TrimRight(s)| <= k < |s| - 1 ensures IsSpace(s[k]) {
        assert s[k] == s[..|s| - 1][k];
      }
    }
  }

  /** `r` is `s[i..]` cut to `|r|` characters, with only whitespace around it. */
  ghost predicate StrippedAt(s: string, r: string, i: int) {
    0 <= i <= |s| - |r| && r == s[i..i + |r|] &&
    (forall k :: 0 <= k < i ==> IsSpace(s[k])) && (forall k :: i + |r| <= k < |s| ==> IsSpace(s[k]))
  }

  /** `Strip(s)` is a slice of `s` with only whitespace cut off around it. */
  lemma StripIsSlice(s: string)
    ensures exists i :: StrippedAt(s, Strip(s), i)
  {
    var t := TrimLeft(s);
    var r := TrimRight(t);
    var i := |s| - |t|;
    TrimLeftCutsSpace(s);
    TrimRightCutsSpace(t);
    SpaceAfterSlice(s, t, |r|);
    assert r == s[i..i + |r|];
    assert StrippedAt(s, Strip(s), i);
  }

  lemma SpaceAfterSlice(s: string, t: string, n: nat)
    requires |t| <= |s| && t == s[|s| - |t|..]
    requires forall k :: n <= k < |t| ==> IsSpace(t[k])
    ensures forall k :: |s| - |t| + n <= k < |s| ==> IsSpace(s[k])
  {
    forall k | |s| - |t| + n <= k < |s| ensures IsSpace(s[k]) {
      assert s[k] == t[k - (|s| - |t|)];
    }
  }

  /** The api variable that a (stripped) line assigns, if it assigns one:
      the line is not blank, not a comment, contains `=`, and the stripped
      text before the first `=` is a key of `api_vars`. */
  function AssignedApiKey(line: string): (r: Option<string>)
  {
    if line == [] || line[0] == '#' then None
    else
      var eq := Find(line, '=');
      if eq < 0 then None
      else
        var key := Strip(line[..eq]);
        if ApiValue(key).Some? then Some(key) else None
  }

  /** A line assigns an api variable exactly when it is not blank, not a
      comment, has an `=`, and the stripped text before the first `=` is a
      key of `api_vars`; that text is the variable. */
  lemma AssignedApiKeyIff(line: string)
    ensures var r := AssignedApiKey(line);
      (r.Some? <==> line != [] && line[0] != '#' && Find(line, '=') >= 0 && ApiValue(Strip(line[..Find(line, '=')])).Some?) &&
      (r.Some? ==> r.value == Strip(line[..Find(line, '=')]) && ApiValue(r.value).Some?)
  {
  }

  /** What one stripped line becomes. */
  function RewriteLine(line: string): string {
    match AssignedApiKey(line)
    case Some(key) => key + "=" + ApiValue(key).value
    case None => line
  }

  /** The processed lines, one per input line, in order. */
  function RewriteLines(lines: seq<string>): (r: seq<string>)
    ensures |r| == |lines|
    ensures forall k :: 0 <= k < |lines| ==> r[k] == RewriteLine(Strip(lines[k]))
  {
    if lines == [] then []
    else
      var front := RewriteLines(lines[..|lines| - 1]);
      var r := front + [RewriteLine(Strip(lines[|lines| - 1]))];
      r
  }

  /** The api variable a raw line assigns once stripped, if any. */
  function LineKey(line: string): Option<string> {
    AssignedApiKey(Strip(line))
  }

  /** Line `k` of `lines` assigns the api variable `key`. */
  predicate AssignsAt(lines: seq<string>, k: int, key: string) {
    0 <= k < |lines| && LineKey(lines[k]) == Some(key)
  }

  /** The values `f` finds in the lines, gathered into a set. */
  function Collect(lines: seq<string>, f: string -> Option<string>): set<string> {
    if lines == [] then {}
    else
      var last := f(lines[|lines| - 1]);
      Collect(lines[..|lines| - 1], f) + (if last.Some? then {last.value} else {})
  }

  /** `Collect` holds exactly the values found on some line. */
  lemma {:induction false} CollectHas(lines: seq<string>, f: string -> Option<string>, x: string)
    ensures x in Collect(lines, f) <==> exists k :: 0 <= k < |lines| && f(lines[k]) == Some(x)
  {
    if lines != [] {
      var init := lines[..|lines| - 1];
      CollectHas(init, f, x);
      if x in Collect(lines, f) && x in Collect(init, f) {
        var k :| 0 <= k < |init| && f(init[k]) == Some(x);
        assert init[k] == lines[k];
      }
      if exists k :: 0 <= k < |lines| && f(lines[k]) == Some(x) {
        var k :| 0 <= k < |lines| && f(lines[k]) == Some(x);
        if k < |init| {
          assert init[k] == lines[k];
        }
      }
    }
  }

  /** `updated_vars`: the api variables some line assigned. */
  function UpdatedVars(lines: seq<string>): set<string> {
    Collect(lines, LineKey)
  }

  /** `UpdatedVars` holds exactly the api variables some line assigns. */
  lemma UpdatedVarsMembers(lines: seq<string>)
    ensures forall key :: key in UpdatedVars(lines) <==> exists k :: AssignsAt(lines, k, key)
  {
    forall key ensures key in UpdatedVars(lines) <==> exists k :: AssignsAt(lines, k, key) {
      CollectHas(lines, LineKey, key);
      if key in UpdatedVars(lines) {
        var k :| 0 <= k < |lines| && LineKey(lines[k]) == Some(key);
        assert AssignsAt(lines, k, key);
      }
      if exists k :: AssignsAt(lines, k, key) {
        var k :| AssignsAt(lines, k, key);
        assert 0 <= k < |lines| && LineKey(lines[k]) == Some(key);
      }
    }
  }

  /** The `KEY=value` lines for the api variables not in `seen`, in dict order. */
  function Missing(vars: seq<(string, string)>, seen: set<string>): (r: seq<string>)
    ensures |r| <= |vars|
    ensures forall l :: l in r <==> exists i :: 0 <= i < |vars| && vars[i].0 !in seen && l == vars[i].0 + "=" + vars[i].1
  {
    if vars == [] then []
    else
      var last := vars[|vars| - 1];
      Missing(vars[..|vars| - 1], seen) + (if last.0 !in seen then [last.0 + "=" + last.1] else [])
  }

  /** The lines written back for the existing text `content`. */
  function Output(content: string): seq<string> {
    var lines := SplitLines(content);
    RewriteLines(lines) + [""] + [Header] + Missing(ApiVars, UpdatedVars(lines))
  }

  /** `"\n".join(lines)`. */
  function Join(lines: seq<string>): string {
    if lines == [] then ""
    else if |lines| == 1 then lines[0]
    else Join(lines[..|lines| - 1]) + "\n" + lines[|lines| - 1]
  }

  /** `update_env_file` from the existing text to the text written. */
  method UpdateEnvFile(existing: string) returns (written: string)
    ensures written == Join(Output(existing))
  {
    var lines := SplitLines(existing);
    var updatedLines, updatedVars := RewriteAll(lines);
    ghost var rewritten := updatedLines;
    // Both branches of the source's test append the blank line.
    if updatedLines != [] && Strip(updatedLines[|updatedLines| - 1]) == [] {
      updatedLines := updatedLines + [""];
    } else {
      updatedLines := updatedLines + [""];
    }
    assert updatedLines == rewritten + [""];
    updatedLines := updatedLines + [Header];
    assert updatedLines == rewritten + [""] + [Header];
    updatedLines := AppendMissing(updatedLines, updatedVars);
    written := Join(updatedLines);
  }

  /** The loop over the lines: `updated_lines` and `updated_vars` after it. */
  method RewriteAll(lines: seq<string>) returns (updatedLines: seq<string>, updatedVars: set<string>)
    ensures updatedLines == RewriteLines(lines)
    ensures updatedVars == UpdatedVars(lines)
  {
    updatedLines, updatedVars := [], {};
    for i := 0 to |lines|
      invariant updatedLines == RewriteLines(lines[..i])
      invariant updatedVars == UpdatedVars(lines[..i])
    {
      var line := Strip(lines[i]);
      PrefixStep(lines, i);
      var out, key := RewriteOne(line);
      updatedLines := updatedLines + [out];
      if key.Some? {
        updatedVars := updatedVars + {key.value};
      }
    }
    assert lines[..|lines|] == lines;
  }

  /** Extending the prefix of `lines` by line `i` extends both results by what that line gives. */
  lemma PrefixStep(lines: seq<string>, i: int)
    requires 0 <= i < |lines|
    ensures RewriteLines(lines[..i + 1]) == RewriteLines(lines[..i]) + [RewriteLine(Strip(lines[i]))]
    ensures UpdatedVars(lines[..i + 1]) == UpdatedVars(lines[..i]) + (if LineKey(lines[i]).Some? then {LineKey(lines[i]).value} else {})
  {
    assert lines[..i + 1][..i] == lines[..i];
  }

  /** The body of the loop over the lines: the line to keep, and the api
      variable it assigned, if any. */
  method RewriteOne(line: string) returns (out: string, key: Option<string>)
    ensures out == RewriteLine(line) && key == AssignedApiKey(line)
  {
    key := None;
    if line == [] || line[0] == '#' {
      out := line;
    } else {
      var eq := Find(line, '=');
      if eq >= 0 {
        var k := Strip(line[..eq]);
        var value := ApiValue(k);
        if value.Some? {
          out := k + "=" + value.value;
          key := Some(k);
        } else {
          out := line;
        }
      } else {
        out := line;
      }
    }
  }

  /** The loop over `api_vars` that appends the variables not yet seen. */
  method AppendMissing(lines: seq<string>, seen: set<string>) returns (r: seq<string>)
    ensures r == lines + Missing(ApiVars, seen)
  {
    r := lines;
    for j := 0 to |ApiVars|
      invariant r == lines + Missing(ApiVars[..j], seen)
    {
      assert ApiVars[..j + 1][..j] == ApiVars[..j];
      var (key, value) := ApiVars[j];
      if key !in seen {
        r := r + [key + "=" + value];
      }
    }
    assert ApiVars[..|ApiVars|] == ApiVars;
  }

  /** Every input line is kept, stripped and in order, and only a line that
      assigns an api variable changes: it becomes `KEY=value`. Then come the
      blank line and the header. */
  lemma OutputKeepsLines(content: string)
    ensures var lines := SplitLines(content);
      |Output(content)| >= |lines| + 2 &&
      Output(content)[|lines|] == "" && Output(content)[|lines| + 1] == Header &&
      forall k :: 0 <= k < |lines| ==>
        (AssignedApiKey(Strip(lines[k])).None? ==> Output(content)[k] == Strip(lines[k])) &&
        (AssignedApiKey(Strip(lines[k])).Some? ==>
           Output(content)[k] == AssignedApiKey(Strip(lines[k])).value + "=" + ApiValue(AssignedApiKey(Strip(lines[k])).value).value)
  {
  }

  /** Blank lines, comments and lines without `=` pass through after stripping. */
  lemma PassThrough(line: string)
    requires var s := Strip(line); s == [] || s[0] == '#' || Find(s, '=') < 0
    ensures RewriteLine(Strip(line)) == Strip(line)
  {
  }

  /** Every api variable ends up in the output with its value, either where
      the file assigned it or after the header. */
  lemma EveryApiVarPresent(content: string)
    ensures forall i :: 0 <= i < |ApiVars| ==> ApiVars[i].0 + "=" + ApiVars[i].1 in Output(content)
  {
    var lines := SplitLines(content);
    UpdatedVarsMembers(lines);
    forall i | 0 <= i < |ApiVars| ensures ApiVars[i].0 + "=" + ApiVars[i].1 in Output(content) {
      if ApiVars[i].0 in UpdatedVars(lines) {
        var k :| AssignsAt(lines, k, ApiVars[i].0);
        ApiVarRewritten(content, i, k);
      } else {
        ApiVarAppended(content, i);
      }
    }
  }

  /** An api variable the file assigns is rewritten in place. */
  lemma ApiVarRewritten(content: string, i: nat, k: int)
    requires i < |ApiVars| && AssignsAt(SplitLines(content), k, ApiVars[i].0)
    ensures ApiVars[i].0 + "=" + ApiVars[i].1 in Output(content)
  {
    assert Output(content)[k] == RewriteLines(SplitLines(content))[k];
  }

  /** An api variable no line assigns is appended after the header. */
  lemma ApiVarAppended(content: string, i: nat)
    requires i < |ApiVars| && ApiVars[i].0 !in UpdatedVars(SplitLines(content))
    ensures ApiVars[i].0 + "=" + ApiVars[i].1 in Output(content)
  {
    var lines := SplitLines(content);
    MissingHas(ApiVars, UpdatedVars(lines), i);
  }

  /** A variable nobody assigned is among the appended lines. */
  lemma MissingHas(vars: seq<(string, string)>, seen: set<string>, i: nat)
    requires i < |vars| && vars[i].0 !in seen
    ensures vars[i].0 + "=" + vars[i].1 in Missing(vars, seen)
  {
  }

  /** Only api variables that no line assigned are appended after the header. */
  lemma AppendedOnlyUnseen(content: string)
    ensures var lines := SplitLines(content);
      forall l :: l in Missing(ApiVars, UpdatedVars(lines)) ==>
        exists i :: 0 <= i < |ApiVars| && l == ApiVars[i].0 + "=" + ApiVars[i].1 &&
          forall k :: !AssignsAt(lines, k, ApiVars[i].0)
  {
    UpdatedVarsMembers(SplitLines(content));
  }
}
