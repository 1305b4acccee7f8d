/** Viewer generation of utils/eval/streamlit_viewing/generate_viewers.py:
    for every `.jsonl` file of the completions store, a copy of a template
    script with two placeholders filled in, named after the file's relative
    path. */
module GenerateViewers {
  import opened PyStrings
  import opened Paths
  import GeneratePages

  /** `rel_path.replace('/', '_').replace('.jsonl', '_viewer.py')`. */
  function ViewerName(rel: string): (name: string)
    ensures '/' !in name
  {
    var flat := Replace(rel, "/", "_");
    ReplaceCharRemoves(rel, '/', '_');
    ReplaceKeepsAbsent(flat, ".jsonl", "_viewer.py", '/');
    Replace(flat, ".jsonl", "_viewer.py")
  }

  /** `.jsonl` cannot overlap itself, so its last occurrence is always
      replaced. */
  lemma JsonlSelfDisjoint()
    ensures SelfDisjoint(".jsonl")
  {
    var p := ".jsonl";
    forall k | 0 < k < |p| ensures p[k..] != p[..|p| - k] {
      assert p[k..][0] == p[k] != '.' == p[..|p| - k][0];
    }
  }

  /** The file found is a `.jsonl` file, so its viewer is a Python script:
      the name ends with `_viewer.py`. */
  lemma ViewerNameIsScript(rel: string)
    requires IsJsonl(rel)
    ensures EndsWith(ViewerName(rel), "_viewer.py")
  {
    ReplaceCharKeepsSuffix(rel, '/', '_', ".jsonl");
    JsonlSelfDisjoint();
    ReplaceKeepsSuffix(Replace(rel, "/", "_"), ".jsonl", "_viewer.py");
  }

  /** For a path whose only dot is that of its extension, the viewer is
      named like the page of the same file, with `_viewer.py` appended. */
  lemma ViewerNameOfPlain(stem: string)
    requires '.' !in stem
    ensures ViewerName(stem + ".jsonl") == Replace(stem, "/", "_") + "_viewer.py"
    ensures ViewerName(stem + ".jsonl") == GeneratePages.PageName(stem + ".jsonl") + "_viewer.py"
  {
    var flat := Replace(stem, "/", "_");
    ReplaceCharConcat(stem, ".jsonl", '/', '_');
    ReplaceCharAbsent(".jsonl", '/', '_');
    ReplaceCharPointwise(stem, '/', '_');
    assert '.' !in flat by {
      assert forall i :: 0 <= i < |flat| ==> flat[i] == '_' || flat[i] == stem[i];
    }
    ReplaceSkipsPrefix(flat, ".jsonl", ".jsonl", "_viewer.py");
    assert ".jsonl" + "" == ".jsonl";
    ReplaceAtFront("", ".jsonl", "_viewer.py");
    assert "_viewer.py" + "" == "_viewer.py";
    GeneratePages.PageNameOfPlain(stem);
  }

  /** The viewer of `NLP_research/NLP_research_random_prompt_output.jsonl`
      is `NLP_research_NLP_research_random_prompt_output_viewer.py`. */
  lemma ResearchViewerName()
    ensures ViewerName("NLP_research" + "/" + "NLP_research_random_prompt_output" + ".jsonl")
         == "NLP_research" + "_" + "NLP_research_random_prompt_output" + "_viewer.py"
  {
    var x, y := "NLP_research", "NLP_research_random_prompt_output";
    assert '.' !in x && '/' !in x && '.' !in y && '/' !in y;
    ViewerNameOfPlain(x + "/" + y);
    GeneratePages.FlattenJoin(x, y);
  }

  const FilePathPlaceholder: string := "REPLACE_WITH_FILE_PATH"

  const IsRandomPlaceholder: string := "REPLACE_WITH_IS_RANDOM"

  /** `f'"{full_path}"'`. */
  function Quoted(path: string): string {
    "\"" + path + "\""
  }

  /** Lines 35-41: every file-path placeholder becomes the full path in
      double quotes, then every is-random placeholder of that result
      becomes `True` or `False`. */
  function ViewerContent(template: string, fullPath: string, isRandom: bool): string {
    Replace(Replace(template, FilePathPlaceholder, Quoted(fullPath)), IsRandomPlaceholder, BoolStr(isRandom))
  }

  /** A template with neither placeholder is copied unchanged: every viewer
      generated from it is the template itself, whatever its file. */
  lemma ViewerContentWithoutPlaceholders(template: string, fullPath: string, isRandom: bool)
    requires !Contains(template, FilePathPlaceholder) && !Contains(template, IsRandomPlaceholder)
    ensures ViewerContent(template, fullPath, isRandom) == template
  {
    ReplaceAbsent(template, FilePathPlaceholder, Quoted(fullPath));
    ReplaceAbsent(template, IsRandomPlaceholder, BoolStr(isRandom));
  }

  const LineEnd: string := "\"\n"

  /** Two placeholders in a row, `p1` after `open` and `p2` after `mid`,
      replaced one after the other: each is replaced by its value as long
      as no occurrence of a placeholder can start in the text around it or
      in the first value, and the first placeholder does not reappear
      after it. */
  lemma {:induction false} ReplaceTwice(open: string, p1: string, mid: string, p2: string, end: string, q: string, v: string)
    requires |p1| >= 2 && |p2| >= 2 && |end| < |p2|
    requires NoStartIn(open, p1) && NoStartIn(open, p2) && NoStartIn(mid, p2) && NoStartIn(q, p2)
    requires !Contains(mid + (p2 + end), p1)
    ensures Replace(Replace(open + (p1 + (mid + (p2 + end))), p1, q), p2, v) == open + (q + (mid + (v + end)))
  {
    var rest := mid + (p2 + end);
    ReplaceSplit(open, p1 + rest, p1, q);
    ReplaceAtFront(rest, p1, q);
    ReplaceAbsent(rest, p1, q);
    ReplaceSplit(open, q + rest, p2, v);
    ReplaceSplit(q, rest, p2, v);
    ReplaceSplit(mid, p2 + end, p2, v);
    ReplaceAtFront(end, p2, v);
  }

  /** Two template lines, the file path placeholder after `open` and the
      flag placeholder between `mid` and the closing quote: the path is put
      in quotes and the flag spelled out. The text around the placeholders
      must not itself start either placeholder, and the path must not hold
      the placeholders' first letter, or a replacement would reach into it. */
  lemma PlaceholderLines(open: string, mid: string, path: string, isRandom: bool)
    requires NoStartIn(open, FilePathPlaceholder) && NoStartIn(open, IsRandomPlaceholder)
    requires NoStartIn(mid, IsRandomPlaceholder) && 'F' !in mid
    requires 'R' !in path
    ensures ViewerContent(open + (FilePathPlaceholder + (mid + (IsRandomPlaceholder + LineEnd))), path, isRandom)
         == open + (Quoted(path) + (mid + (BoolStr(isRandom) + LineEnd)))
  {
    var q := Quoted(path);
    assert NoStartIn(q, IsRandomPlaceholder) by {
      assert 'R' !in q;
    }
    var rest := mid + (IsRandomPlaceholder + LineEnd);
    assert 'F' !in rest;
    ContainsNeedsChar(rest, FilePathPlaceholder, 'F');
    ReplaceTwice(open, FilePathPlaceholder, mid, IsRandomPlaceholder, LineEnd, q, BoolStr(isRandom));
  }

  const TargetOpen: string := "TARGET_FILE = \""

  const FlagOpen: string := "\"\nIS_RANDOM = \""

  /** A template whose placeholders sit inside double quotes, as in
      `TARGET_FILE = "REPLACE_WITH_FILE_PATH"`, gets the path in doubled
      quotes and the flag as a quoted string. */
  lemma QuotedPlaceholders(path: string, isRandom: bool)
    requires 'R' !in path
    ensures ViewerContent(TargetOpen + (FilePathPlaceholder + (FlagOpen + (IsRandomPlaceholder + LineEnd))), path, isRandom)
         == TargetOpen + (Quoted(path) + (FlagOpen + (BoolStr(isRandom) + LineEnd)))
  {
    PlaceholderLines(TargetOpen, FlagOpen, path, isRandom);
  }

  /** `default/default_normal_prompt_output.jsonl` in the store. */
  const DefaultEntry: WalkEntry := WalkEntry("default", "default_normal_prompt_output.jsonl")

  /** `NLP_research/NLP_research_random_prompt_output.jsonl` in the store. */
  const ResearchEntry: WalkEntry := WalkEntry("NLP_research", "NLP_research_" + "random" + "_prompt_output.jsonl")

  /** The default-prompt file is not a random-prompt file. */
  lemma DefaultNotRandom()
    ensures !IsRandom(DefaultEntry.file)
  {
    var f := DefaultEntry.file;
    assert forall i :: 0 <= i < |f| ==> !('A' <= f[i] <= 'Z');
    assert forall i :: 0 <= i < |f| - 1 ==> !(f[i] == 'r' && f[i + 1] == 'a');
    NotRandomWithoutPair(f);
  }

  /** The NLP_research random-prompt file is one. */
  lemma ResearchIsRandom()
    ensures IsRandom(ResearchEntry.file)
  {
    LowerOfLower("random");
    IsRandomInfix("NLP_research_", "random", "_prompt_output.jsonl");
  }

  /** With quoted placeholders the viewer of the default-prompt file gets
      `TARGET_FILE = ""completions_eval_store/default/default_normal_prompt_output.jsonl""`
      and `IS_RANDOM = "False"`, the line pair of
      generated_graphs/default_default_normal_prompt_output_viewer.py. */
  lemma DefaultViewerLines()
    ensures FullPath(DefaultEntry) == BaseDir + "/" + "default" + "/" + "default_normal_prompt_output.jsonl"
    ensures ViewerContent(TargetOpen + (FilePathPlaceholder + (FlagOpen + (IsRandomPlaceholder + LineEnd))),
                          FullPath(DefaultEntry), false)
         == TargetOpen + ("\"" + FullPath(DefaultEntry) + "\"" + (FlagOpen + ("False" + LineEnd)))
  {
    FullPathAvoids(DefaultEntry, 'R');
    QuotedPlaceholders(FullPath(DefaultEntry), false);
  }

  const BareTargetOpen: string := "TARGET_FILE = "

  const BareFlagOpen: string := "\nIS_RANDOM = \""

  /** A template with a bare path placeholder, as in
      `TARGET_FILE = REPLACE_WITH_FILE_PATH`, gets the path in one pair
      of double quotes. */
  lemma BarePathPlaceholder(path: string, isRandom: bool)
    requires 'R' !in path
    ensures ViewerContent(BareTargetOpen + (FilePathPlaceholder + (BareFlagOpen + (IsRandomPlaceholder + LineEnd))), path, isRandom)
         == BareTargetOpen + (Quoted(path) + (BareFlagOpen + (BoolStr(isRandom) + LineEnd)))
  {
    PlaceholderLines(BareTargetOpen, BareFlagOpen, path, isRandom);
  }

  /** With a bare path placeholder and a quoted flag placeholder the viewer
      of the NLP_research random-prompt file gets
      `TARGET_FILE = "completions_eval_store/NLP_research/NLP_research_random_prompt_output.jsonl"`
      and `IS_RANDOM = "True"`, the line pair of
      generated/NLP_research_NLP_research_random_prompt_output_viewer.py. */
  lemma ResearchViewerLines()
    ensures ViewerContent(BareTargetOpen + (FilePathPlaceholder + (BareFlagOpen + (IsRandomPlaceholder + LineEnd))),
                          FullPath(ResearchEntry), true)
         == BareTargetOpen + ("\"" + FullPath(ResearchEntry) + "\"" + (BareFlagOpen + ("True" + LineEnd)))
  {
    FullPathAvoids(ResearchEntry, 'R');
    BarePathPlaceholder(FullPath(ResearchEntry), true);
  }

  /** A viewer to be written: its file name in the viewers directory and
      its text. */
  datatype Viewer = Viewer(fileName: string, content: string)

  /** One iteration of the loop of `generate_viewers` (lines 22-45): a
      `.jsonl` file gets a viewer script, named after its relative path and
      filled in with its full path and its random flag; any other file gets
      none. */
  function ViewerFor(template: string, e: WalkEntry): (v: GeneratePages.Option<Viewer>)
    ensures v.Some? <==> IsJsonl(e.file)
    ensures v.Some? ==> v.value.fileName == ViewerName(RelPath(e))
    ensures v.Some? ==> '/' !in v.value.fileName && EndsWith(v.value.fileName, "_viewer.py")
    ensures v.Some? ==> v.value.content == ViewerContent(template, FullPath(e), IsRandom(e.file))
  {
    if IsJsonl(e.file) then
      var rel := RelPath(e);
      assert rel[|rel| - 6..] == e.file[|e.file| - 6..];
      ViewerNameIsScript(rel);
      GeneratePages.Some(Viewer(ViewerName(rel), ViewerContent(template, FullPath(e), IsRandom(e.file))))
    else GeneratePages.None
  }
}
