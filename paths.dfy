/** The file names both page generators derive from one entry of the
    directory walk over the completions store
    (utils/eval/streamlit_viewing/generate_pages.py and generate_viewers.py). */
module Paths {
  import opened PyStrings

  /** `base_dir`. */
  const BaseDir: string := "completions_eval_store"

  /** One file found by `os.walk(base_dir)`: `dir` is the walked directory
      relative to the base (`""` for the base itself, otherwise
      `/`-separated names), `file` the bare file name. */
  datatype WalkEntry = WalkEntry(dir: string, file: string)

  /** `root` as `os.walk` reports it for the entry's directory. */
  function Root(e: WalkEntry): string {
    if e.dir == "" then BaseDir else BaseDir + "/" + e.dir
  }

  /** `os.path.join(root, file)`. */
  function FullPath(e: WalkEntry): string {
    Root(e) + "/" + e.file
  }

  /** `os.path.relpath(full_path, base_dir)` for a path below the base. */
  function RelPath(e: WalkEntry): (rel: string)
    ensures EndsWith(rel, e.file)
  {
    var r := if e.dir == "" then e.file else e.dir + "/" + e.file;
    assert r[|r| - |e.file|..] == e.file;
    r
  }

  /** The full path is the base directory, a separator and the relative
      path, so `relpath` undoes `join`. */
  lemma FullPathIsBaseAndRel(e: WalkEntry)
    ensures FullPath(e) == BaseDir + "/" + RelPath(e)
    ensures StartsWith(FullPath(e), BaseDir + "/")
    ensures EndsWith(FullPath(e), e.file)
  {
    var p := FullPath(e);
    assert p[|p| - |e.file|..] == e.file;
    assert p[..|BaseDir + "/"|] == BaseDir + "/";
  }

  /** A character in none of the base directory, the directory and the
      file name is not in the full path. */
  lemma FullPathAvoids(e: WalkEntry, c: char)
    requires c != '/' && c !in BaseDir && c !in e.dir && c !in e.file
    ensures c !in FullPath(e)
  {
  }

  /** `file.endswith('.jsonl')`: only such files get a page. */
  predicate IsJsonl(file: string) {
    EndsWith(file, ".jsonl")
  }

  /** `"random" in file.lower()`: decided by the file name alone, never by
      the directory it is in. */
  predicate IsRandom(file: string) {
    Contains(Lower(file), "random")
  }

  /** Any spelling of `random`, in any letter case and anywhere in the
      name, marks the file as random. */
  lemma IsRandomInfix(a: string, w: string, b: string)
    requires Lower(w) == "random"
    ensures IsRandom(a + w + b)
  {
    LowerConcat(a + w, b);
    LowerConcat(a, w);
    ContainsInfix(Lower(a), "random", Lower(b));
  }

  /** A name is marked random exactly when its lowercase form has
      `random` at some position. */
  lemma IsRandomIff(file: string)
    ensures IsRandom(file) <==> exists i :: OccursAt(Lower(file), "random", i)
  {
    var s := Lower(file);
    ContainsIffOccurs(s, "random");
    if IsRandom(file) {
      var i :| OccursAt(s, "random", i);
      assert OccursAt(Lower(file), "random", i);
    }
  }

  /** A lowercase name free of the letter pair `ra` is not random. */
  lemma NotRandomWithoutPair(file: string)
    requires forall i :: 0 <= i < |file| ==> !('A' <= file[i] <= 'Z')
    requires forall i :: 0 <= i < |file| - 1 ==> !(file[i] == 'r' && file[i + 1] == 'a')
    ensures !IsRandom(file)
  {
    var s := Lower(file);
    assert s == file;
    ContainsIffOccurs(s, "random");
    if i :| OccursAt(s, "random", i) {
      OccurrenceStarts(s, "random", i);
    }
  }

  /** An occurrence fixes the first two characters at its position. */
  lemma OccurrenceStarts(s: string, p: string, i: int)
    requires |p| >= 2 && OccursAt(s, p, i)
    ensures s[i] == p[0] && s[i + 1] == p[1]
  {
    assert s[i..i + |p|][0] == s[i];
    assert s[i..i + |p|][1] == s[i + 1];
  }
}
