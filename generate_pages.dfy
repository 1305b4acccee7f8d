/** Page generation of utils/eval/streamlit_viewing/generate_pages.py: for
    every `.jsonl` file of the completions store, a Streamlit page script
    named after the file's relative path. */
module GeneratePages {
  import opened PyStrings
  import opened Paths

  /** `rel_path.replace('/', '_').replace('.jsonl', '')`. The name has no
      directory separator, so the page lands directly in the pages
      directory, and it is never longer than the relative path. */
  function PageName(rel: string): (name: string)
    ensures '/' !in name
    ensures |name| <= |rel|
  {
    var flat := Replace(rel, "/", "_");
    ReplaceCharPointwise(rel, '/', '_');
    ReplaceCharRemoves(rel, '/', '_');
    ReplaceKeepsAbsent(flat, ".jsonl", "", '/');
    ReplaceNoLonger(flat, ".jsonl", "");
    Replace(flat, ".jsonl", "")
  }

  /** Flattening the separators keeps every other character in place. */
  lemma FlattenPointwise(rel: string)
    ensures |Replace(rel, "/", "_")| == |rel|
    ensures forall i :: 0 <= i < |rel| ==>
      Replace(rel, "/", "_")[i] == if rel[i] == '/' then '_' else rel[i]
  {
    ReplaceCharPointwise(rel, '/', '_');
  }

  /** For a path whose only dot is that of the `.jsonl` extension, the page
      name is the path without the extension, separators flattened. */
  lemma PageNameOfPlain(stem: string)
    requires '.' !in stem
    ensures PageName(stem + ".jsonl") == Replace(stem, "/", "_")
  {
    var flat := Replace(stem, "/", "_");
    ReplaceCharConcat(stem, ".jsonl", '/', '_');
    ReplaceCharAbsent(".jsonl", '/', '_');
    ReplaceCharPointwise(stem, '/', '_');
    assert '.' !in flat by {
      assert forall i :: 0 <= i < |flat| ==> flat[i] == '_' || flat[i] == stem[i];
    }
    ReplaceSkipsPrefix(flat, ".jsonl", ".jsonl", "");
    assert ".jsonl" + "" == ".jsonl";
    ReplaceAtFront("", ".jsonl", "");
    assert flat + "" == flat;
  }

  /** A file name with no dot but that of its extension keeps its name,
      extension dropped. */
  lemma PlainNameKept(name: string)
    requires '.' !in name && '/' !in name
    ensures PageName(name + ".jsonl") == name
  {
    PageNameOfPlain(name);
    ReplaceCharAbsent(name, '/', '_');
  }

  /** Flattening a directory and a file name joined by one separator. */
  lemma FlattenJoin(x: string, y: string)
    requires '/' !in x && '/' !in y
    ensures Replace(x + "/" + y, "/", "_") == x + "_" + y
  {
    ReplaceCharConcat(x + "/", y, '/', '_');
    ReplaceCharConcat(x, "/", '/', '_');
    ReplaceCharAbsent(x, '/', '_');
    ReplaceCharAbsent(y, '/', '_');
    ReplaceCharPointwise("/", '/', '_');
  }

  /** The store file `default/default_normal_prompt_output.jsonl` gets the
      page `default_default_normal_prompt_output`. */
  lemma DefaultPageName()
    ensures PageName("default" + "/" + "default_normal_prompt_output" + ".jsonl")
         == "default" + "_" + "default_normal_prompt_output"
  {
    var x, y := "default", "default_normal_prompt_output";
    assert '.' !in x && '/' !in x && '.' !in y && '/' !in y;
    PageNameOfPlain(x + "/" + y);
    FlattenJoin(x, y);
  }

  /** Flattening loses the difference between a separator and an
      underscore: a file `y.jsonl` in directory `x` and a file
      `x_y.jsonl` in the store root are different files with the same page
      name (PageFilesCollide follows this to the page files). */
  lemma PageNamesCollide(x: string, y: string)
    requires x != [] && '.' !in x && '/' !in x && '.' !in y && '/' !in y
    ensures var a, b := WalkEntry(x, y + ".jsonl"), WalkEntry("", x + "_" + y + ".jsonl");
      a != b && PageName(RelPath(a)) == PageName(RelPath(b))
  {
    var a, b := WalkEntry(x, y + ".jsonl"), WalkEntry("", x + "_" + y + ".jsonl");
    assert RelPath(a) == (x + "/" + y) + ".jsonl";
    PageNameOfPlain(x + "/" + y);
    FlattenJoin(x, y);
    PlainNameKept(x + "_" + y);
  }

  /** The `page_title` argument, up to the page name. */
  const TitleOpen: string := "    page_title=\"LM Completions Viewer - "

  /** The `open` call of `load_completions`, up to the file path. */
  const OpenCall: string := "        with open(\""

  /** The header line of `main`, up to the relative path. */
  const HeaderOpen: string := "    st.header(\"Viewing: "

  const Quote: string := "\""

  /** Inserted into `load_completions` for random-prompt files: keep the
      record's `random_doc` beside its text. */
  const LoadRandomDoc: string :=
    "if 'random_doc' in data:\n                            completion_data['random_doc'] = data['random_doc']"

  /** Inserted into the display loop for random-prompt files: show the
      random document above the completion. */
  const ShowRandomDoc: string :=
    "if 'random_doc' in completion:\n            st.write('**Random Document:**')\n            st.text(completion['random_doc'])\n            st.write('**Completion:**')"

  /** The literal text of the page template, cut at its five fields:
      `intro` holds the imports and the start of `st.set_page_config`;
      `loaderHead` the rest of the page configuration and the start of
      `load_completions`; `loaderBody` its parsing loop up to the
      random-document slot; `loaderTail` the end of `load_completions` and
      the start of `main`; `viewerBody` search, pagination and the display
      loop up to the random-document slot; `viewerTail` the rest of the
      display loop and the script entry point. */
  datatype PageText = PageText(intro: string, loaderHead: string, loaderBody: string,
                               loaderTail: string, viewerBody: string, viewerTail: string)

  /** The text of the f-string of lines 10-87, `{{` and `}}` already
      reduced to single braces. */
  const TemplateText: PageText := PageText(
    @"import streamlit as st
import json
from pathlib import Path

st.set_page_config(
",
    @",
    layout=""wide""
)

@st.cache_data(ttl=3600)
def load_completions():
    """"""Load and parse the JSONL file.""""""
    completions = []
    try:
",
    @", 'r', encoding='utf-8') as f:
            for line in f:
                try:
                    data = json.loads(line.strip())
                    if 'completion_only' in data:
                        completion_data = {
                            'text': data['completion_only']
                        }
                        ",
    @"
                        completions.append(completion_data)
                except json.JSONDecodeError:
                    st.warning(f""Could not parse line in {file_path}"")
                    continue
    except Exception as e:
        st.error(f""Error loading file {file_path}: {str(e)}"")
        return []
    return completions

def main():
    st.title(""LM Completions Viewer"")
",
    @")
    
    # Add a loading spinner while loading the file
    with st.spinner('Loading completions...'):
        completions = load_completions()
    
    if not completions:
        st.warning(""No completions found in this file."")
        return
    
    # Display completion count
    st.write(f""Total completions: {len(completions)}"")
    
    # Add a search box
    search_term = st.text_input(""Search completions:"", """")
    
    # Filter completions based on search term
    filtered_completions = completions
    if search_term:
        filtered_completions = [c for c in completions if search_term.lower() in c['text'].lower()]
        st.write(f""Found {len(filtered_completions)} matching completions"")
    
    # Add pagination
    items_per_page = 100
    total_pages = (len(filtered_completions) + items_per_page - 1) // items_per_page
    page = st.number_input('Page', min_value=1, max_value=max(1, total_pages), value=1)
    
    # Calculate the range of completions to display
    start_idx = (page - 1) * items_per_page
    end_idx = min(start_idx + items_per_page, len(filtered_completions))
    
    # Display each completion directly
    for i, completion in enumerate(filtered_completions[start_idx:end_idx], start=start_idx + 1):
        st.subheader(f""Completion {i}"")
        ",
    @"
        st.text_area("""", completion['text'], height=200, key=f""completion_{i}"")
        st.markdown(""---"")  # Add a horizontal line between completions
    
    # Add page navigation info
    st.write(f""Showing completions {start_idx + 1} to {end_idx} of {len(filtered_completions)}"")

if __name__ == ""__main__"":
    main()
"
  )

  /** `snippet if is_random else ""`. */
  function IfRandom(isRandom: bool, snippet: string): string {
    if isRandom then snippet else ""
  }

  /** A template text cut into pieces at its five fields, the fields
      filled in: the title, the file `load_completions` opens, the load
      snippet, the header and the display snippet. */
  function Pieces(text: PageText, filePath: string, relPath: string, pageName: string, isRandom: bool): (ps: seq<string>)
    ensures |ps| == 11
  {
    [text.intro, TitleOpen + pageName + Quote, text.loaderHead, OpenCall + filePath + Quote,
     text.loaderBody, IfRandom(isRandom, LoadRandomDoc), text.loaderTail, HeaderOpen + relPath + Quote,
     text.viewerBody, IfRandom(isRandom, ShowRandomDoc), text.viewerTail]
  }

  /** A template text with its five fields filled in. */
  function Fill(text: PageText, filePath: string, relPath: string, pageName: string, isRandom: bool): string {
    Concat(Pieces(text, filePath, relPath, pageName, isRandom))
  }

  /** The f-string of lines 10-87 with its five fields filled in. */
  function PageTemplate(filePath: string, relPath: string, pageName: string, isRandom: bool): string {
    Fill(TemplateText, filePath, relPath, pageName, isRandom)
  }

  /** `generate_page_template(full_path, is_random)` for a file of the walk:
      the page script and its name. */
  function GeneratePageTemplate(e: WalkEntry, isRandom: bool): (r: (string, string))
    ensures r.1 == PageName(RelPath(e))
    ensures Contains(r.0, TitleOpen + r.1 + Quote)
    ensures Contains(r.0, OpenCall + FullPath(e) + Quote)
    ensures Contains(r.0, HeaderOpen + RelPath(e) + Quote)
  {
    var name := PageName(RelPath(e));
    TemplateFields(TemplateText, FullPath(e), RelPath(e), name, isRandom);
    (PageTemplate(FullPath(e), RelPath(e), name, isRandom), name)
  }

  /** The page shows its own name in the title, reads the file it was made
      for, and names that file's relative path in its header. */
  lemma TemplateFields(text: PageText, filePath: string, relPath: string, pageName: string, isRandom: bool)
    ensures var t := Fill(text, filePath, relPath, pageName, isRandom);
      && Contains(t, TitleOpen + pageName + Quote)
      && Contains(t, OpenCall + filePath + Quote)
      && Contains(t, HeaderOpen + relPath + Quote)
  {
    var ps := Pieces(text, filePath, relPath, pageName, isRandom);
    ConcatContains(ps, 1);
    ConcatContains(ps, 3);
    ConcatContains(ps, 7);
  }

  lemma ConcatSingle(x: string)
    ensures Concat([x]) == x
  {
    assert [x][..0] == [];
  }

  /** A random-prompt page is the plain page with exactly the two
      random-document snippets added, one in the loader and one in the
      display loop. */
  lemma {:induction false} RandomPageAddsSnippets(text: PageText, filePath: string, relPath: string, pageName: string)
    ensures exists a, b, c ::
      && Fill(text, filePath, relPath, pageName, false) == a + b + c
      && Fill(text, filePath, relPath, pageName, true) == a + LoadRandomDoc + b + ShowRandomDoc + c
  {
    var plain := Pieces(text, filePath, relPath, pageName, false);
    var random := Pieces(text, filePath, relPath, pageName, true);
    var p, q, r := plain[..5], plain[6..9], plain[10..];
    assert plain == p + [""] + q + [""] + r;
    assert random == p + [LoadRandomDoc] + q + [ShowRandomDoc] + r;
    forall x: string ensures Concat(p + [x] + q + [x] + r) == Concat(p) + x + Concat(q) + x + Concat(r) {
      ConcatSplit(p + [x] + q + [x], r);
      ConcatSplit(p + [x] + q, [x]);
      ConcatSplit(p + [x], q);
      ConcatSplit(p, [x]);
      ConcatSingle(x);
    }
    ConcatSplit(p + [LoadRandomDoc] + q + [ShowRandomDoc], r);
    ConcatSplit(p + [LoadRandomDoc] + q, [ShowRandomDoc]);
    ConcatSplit(p + [LoadRandomDoc], q);
    ConcatSplit(p, [LoadRandomDoc]);
    ConcatSingle(LoadRandomDoc);
    ConcatSingle(ShowRandomDoc);
    var a, b, c := Concat(p), Concat(q), Concat(r);
    assert Concat(plain) == a + "" + b + "" + c;
    assert a + "" + b + "" + c == a + b + c;
  }

  /** A random page holds both random-document snippets. */
  lemma RandomFields(text: PageText, filePath: string, relPath: string, pageName: string, isRandom: bool)
    ensures isRandom ==>
      var t := Fill(text, filePath, relPath, pageName, isRandom);
      Contains(t, LoadRandomDoc) && Contains(t, ShowRandomDoc)
  {
    var ps := Pieces(text, filePath, relPath, pageName, isRandom);
    ConcatContains(ps, 5);
    ConcatContains(ps, 9);
  }

  /** `f"{page_name}.py"` keeps a name free of separators and ends in `.py`. */
  lemma ScriptName(name: string)
    requires '/' !in name
    ensures '/' !in name + ".py" && EndsWith(name + ".py", ".py")
  {
    var fileName := name + ".py";
    assert fileName[|fileName| - 3..] == ".py";
    assert forall i :: 0 <= i < |fileName| ==> fileName[i] == '/' ==> i >= |name|;
  }

  /** A page script to be written: its file name in the pages directory and
      its text. */
  datatype Page = Page(fileName: string, content: string)

  datatype Option<T> = None | Some(value: T)

  /** One iteration of the loop of `main` (lines 99-112): a `.jsonl` file
      gets the page `<page_name>.py`, random when its own name says so;
      any other file gets none. */
  function PageFor(e: WalkEntry): (p: Option<Page>)
    ensures p.Some? <==> IsJsonl(e.file)
    ensures p.Some? ==> p.value.fileName == PageName(RelPath(e)) + ".py"
    ensures p.Some? ==> p.value.content == GeneratePageTemplate(e, IsRandom(e.file)).0
    ensures p.Some? ==> '/' !in p.value.fileName && EndsWith(p.value.fileName, ".py")
    ensures p.Some? ==> Contains(p.value.content, OpenCall + FullPath(e) + Quote)
    ensures p.Some? && IsRandom(e.file) ==>
      Contains(p.value.content, LoadRandomDoc) && Contains(p.value.content, ShowRandomDoc)
  {
    if IsJsonl(e.file) then
      var (template, name) := GeneratePageTemplate(e, IsRandom(e.file));
      RandomFields(TemplateText, FullPath(e), RelPath(e), name, IsRandom(e.file));
      ScriptName(name);
      Some(Page(name + ".py", template))
    else None
  }

  /** Two filled templates whose file paths first differ at position `i`
      are different texts: the `open` call sits at the same place in both,
      after the same title and page configuration. */
  lemma FillsDiffer(text: PageText, f1: string, f2: string, rel1: string, rel2: string,
                    name: string, r1: bool, r2: bool, i: nat)
    requires i < |f1| && i < |f2| && f1[..i] == f2[..i] && f1[i] != f2[i]
    ensures Fill(text, f1, rel1, name, r1) != Fill(text, f2, rel2, name, r2)
  {
    var ps, qs := Pieces(text, f1, rel1, name, r1), Pieces(text, f2, rel2, name, r2);
    assert ps[..3] == qs[..3];
    assert ps == ps[..3] + [ps[3]] + ps[4..];
    assert qs == qs[..3] + [qs[3]] + qs[4..];
    ConcatSplit(ps[..3] + [ps[3]], ps[4..]);
    ConcatSplit(ps[..3], [ps[3]]);
    ConcatSplit(qs[..3] + [qs[3]], qs[4..]);
    ConcatSplit(qs[..3], [qs[3]]);
    ConcatSingle(ps[3]);
    ConcatSingle(qs[3]);
    var pre := Concat(ps[..3]);
    var k := |pre| + |OpenCall| + i;
    assert Fill(text, f1, rel1, name, r1)[k] == f1[i];
    assert Fill(text, f2, rel2, name, r2)[k] == f2[i];
  }

  /** The colliding files of PageNamesCollide both get a page, under the
      same file name but with different texts, since each page opens its own
      file. The loop of `main` writes both, so the page of the file walked
      second replaces the other. */
  lemma PageFilesCollide(x: string, y: string)
    requires x != [] && '.' !in x && '/' !in x && '.' !in y && '/' !in y
    ensures var a, b := WalkEntry(x, y + ".jsonl"), WalkEntry("", x + "_" + y + ".jsonl");
      && PageFor(a).Some? && PageFor(b).Some?
      && PageFor(a).value.fileName == PageFor(b).value.fileName
      && PageFor(a).value.content != PageFor(b).value.content
  {
    var a, b := WalkEntry(x, y + ".jsonl"), WalkEntry("", x + "_" + y + ".jsonl");
    JsonlName(y);
    JsonlName(x + "_" + y);
    PageNamesCollide(x, y);
    var i := |BaseDir| + 1 + |x|;
    PathsDiffer(x, y);
    FillsDiffer(TemplateText, FullPath(a), FullPath(b), RelPath(a), RelPath(b),
                PageName(RelPath(a)), IsRandom(a.file), IsRandom(b.file), i);
  }

  lemma JsonlName(stem: string)
    ensures IsJsonl(stem + ".jsonl")
  {
    var f := stem + ".jsonl";
    assert f[|f| - 6..] == ".jsonl";
  }

  /** The full paths of the two colliding files first differ right after
      the directory name: a separator in one, an underscore in the other. */
  lemma PathsDiffer(x: string, y: string)
    requires x != []
    ensures var f1, f2 := FullPath(WalkEntry(x, y + ".jsonl")), FullPath(WalkEntry("", x + "_" + y + ".jsonl"));
      var i := |BaseDir| + 1 + |x|;
      i < |f1| && i < |f2| && f1[..i] == f2[..i] && f1[i] == '/' && f2[i] == '_'
  {
    var stem := BaseDir + "/" + x;
    assert FullPath(WalkEntry(x, y + ".jsonl")) == stem + ("/" + y + ".jsonl");
    assert FullPath(WalkEntry("", x + "_" + y + ".jsonl")) == stem + ("_" + y + ".jsonl");
    PrefixThen(stem, "/" + y + ".jsonl");
    PrefixThen(stem, "_" + y + ".jsonl");
  }

  lemma PrefixThen(stem: string, rest: string)
    requires rest != []
    ensures |stem| < |stem + rest| && (stem + rest)[..|stem|] == stem && (stem + rest)[|stem|] == rest[0]
  {
  }
}
