/**
 * process_chunks: every chunk file of data-chunks, in sorted order, is read,
 * its reviews are rendered into one prompt, the prompt is sent to the chat
 * service, and a non-empty first answer is cleaned of markdown and dumped to
 * analyzed-chunks/analyzed_<chunk file>. An exception on a chunk (a file that
 * does not load, a missing column, a failed call) skips that chunk and the
 * loop goes on with the next one.
 *
 * Reading a chunk and calling the service are parameters: `load` gives the
 * rows of a chunk file (None when reading it raises) and `ask` the outcome of
 * the call made for it.
 */
module BatchSummarizer {
  import opened Text
  import opened Wrappers
  import opened Listing
  import opened Markdown
  import Chunker

  const ChunkDir: string := "data-chunks"
  const AnalyzedDir: string := "analyzed-chunks"
  const AnalyzedPrefix: string := "analyzed_"
  const ChunkSuffix: string := ".json"

  /**
   * One row of a chunk table, each cell as the f-string shows it:
   * reviewDateOfExperience, reviewTitle, reviewRatingScore, reviewDescription.
   */
  datatype ReviewRow = ReviewRow(date: string, title: string, rating: string, description: string)

  /** The outcome of one chat completion call: it raised, or it returned these choices' message contents. */
  datatype Completion = Raised | Answered(contents: seq<Option<string>>)

  /** A prompt sent for a chunk file. */
  datatype Prompt = Prompt(chunkFile: string, text: string)

  /** A file written to analyzed-chunks: its name and its "response" value. */
  datatype Analysis = Analysis(name: string, response: string)

  /** The 50 '=' that close every rendered review. */
  const Rule: string := Repeat('=', 50)

  function DateLine(row: ReviewRow): string { "Date: " + row.date }
  function TitleLine(row: ReviewRow): string { "Title: " + row.title }
  function RatingLine(row: ReviewRow): string { "Rating: " + row.rating + "/5" }
  function DescriptionLine(row: ReviewRow): string { "Description: " + row.description }

  /** The per-review template: four labelled lines and the rule. */
  function RenderReview(row: ReviewRow): string
  {
    DateLine(row) + "\n" + TitleLine(row) + "\n" + RatingLine(row) + "\n" + DescriptionLine(row) + "\n" + Rule
  }

  /** The rendered reviews of a chunk, in row order. */
  function Rendered(rows: seq<ReviewRow>): (texts: seq<string>)
    ensures |texts| == |rows| && forall i :: 0 <= i < |rows| ==> texts[i] == RenderReview(rows[i])
  {
    seq(|rows|, i requires 0 <= i < |rows| => RenderReview(rows[i]))
  }

  /** "\n".join(reviews) */
  function ChunkText(rows: seq<ReviewRow>): string
  {
    Join(Rendered(rows), "\n")
  }

  /** The inner loop: one rendered review appended per row. */
  method RenderRows(rows: seq<ReviewRow>) returns (reviews: seq<string>)
    ensures reviews == Rendered(rows)
  {
    reviews := [];
    var i := 0;
    while i < |rows|
      invariant 0 <= i <= |rows|
      invariant reviews == Rendered(rows[..i])
    {
      reviews := reviews + [RenderReview(rows[i])];
      i := i + 1;
    }
    assert rows[..i] == rows;
  }

  /** The content the code keeps: the first choice's, when there is a choice and its content is non-empty. */
  function UsableContent(c: Completion): (r: Option<string>)
    ensures r.Some? <==> c.Answered? && |c.contents| > 0 && c.contents[0].Some? && c.contents[0].value != ""
    ensures r.Some? ==> r.value == c.contents[0].value
  {
    if c.Answered? && |c.contents| > 0 && c.contents[0].Some? && c.contents[0].value != "" then
      Some(c.contents[0].value)
    else None
  }

  /** The prompt sent for one chunk file: none when the file does not load. */
  function PromptOf(chunkFile: string, load: string -> Option<seq<ReviewRow>>): Option<Prompt>
  {
    if load(chunkFile).None? then None else Some(Prompt(chunkFile, ChunkText(load(chunkFile).value)))
  }

  /** What processing one chunk file writes, if anything. */
  function AnalysisOf(chunkFile: string, load: string -> Option<seq<ReviewRow>>, ask: string -> Completion): Option<Analysis>
  {
    if load(chunkFile).None? then None
    else
      match UsableContent(ask(chunkFile))
      case Some(content) => Some(Analysis(AnalyzedPrefix + chunkFile, CleanMarkdown(content)))
      case None => None
  }

  /** The prompts sent for the files, in order; a file that does not load sends none. */
  function Prompts(files: seq<string>, load: string -> Option<seq<ReviewRow>>): seq<Prompt>
  {
    Present(seq(|files|, i requires 0 <= i < |files| => PromptOf(files[i], load)))
  }

  /** The analyses written for the files, in order. */
  function Analyses(files: seq<string>, load: string -> Option<seq<ReviewRow>>, ask: string -> Completion): seq<Analysis>
  {
    Present(seq(|files|, i requires 0 <= i < |files| => AnalysisOf(files[i], load, ask)))
  }

  /** sorted([f for f in os.listdir('data-chunks') if f.endswith('.json')]) */
  function ChunkFiles(listing: seq<string>): (files: seq<string>)
    ensures Sorted(files)
    ensures forall f :: f in files <==> f in listing && HasSuffix(f, ChunkSuffix)
  {
    var files := Sort(FilterSuffix(listing, ChunkSuffix));
    assert forall f :: f in files <==> f in multiset(FilterSuffix(listing, ChunkSuffix));
    files
  }

  /**
   * The loop of process_chunks over a listing of data-chunks: the prompts it
   * sends and the analyses it writes, both in sorted chunk-file order.
   */
  method ProcessChunks(listing: seq<string>, load: string -> Option<seq<ReviewRow>>, ask: string -> Completion)
    returns (sent: seq<Prompt>, written: seq<Analysis>)
    ensures sent == Prompts(ChunkFiles(listing), load)
    ensures written == Analyses(ChunkFiles(listing), load, ask)
  {
    var chunkFiles := Sort(FilterSuffix(listing, ChunkSuffix));
    ghost var prompts := seq(|chunkFiles|, i requires 0 <= i < |chunkFiles| => PromptOf(chunkFiles[i], load));
    ghost var analyses := seq(|chunkFiles|, i requires 0 <= i < |chunkFiles| => AnalysisOf(chunkFiles[i], load, ask));
    sent, written := [], [];
    var i := 0;
    while i < |chunkFiles|
      invariant 0 <= i <= |chunkFiles|
      invariant sent == Present(prompts[..i])
      invariant written == Present(analyses[..i])
    {
      var prompt, analysis := ProcessChunk(chunkFiles[i], load, ask);
      PresentStep(prompts, i);
      PresentStep(analyses, i);
      if prompt.Some? {
        sent := sent + [prompt.value];
      }
      if analysis.Some? {
        written := written + [analysis.value];
      }
      i := i + 1;
    }
    assert prompts[..i] == prompts;
    assert analyses[..i] == analyses;
  }

  /** The body of the loop for one chunk file; raising anywhere in it means returning None. */
  method ProcessChunk(chunkFile: string, load: string -> Option<seq<ReviewRow>>, ask: string -> Completion)
    returns (prompt: Option<Prompt>, analysis: Option<Analysis>)
    ensures prompt == PromptOf(chunkFile, load)
    ensures analysis == AnalysisOf(chunkFile, load, ask)
  {
    prompt, analysis := None, None;
    var chunkData := load(chunkFile);
    if chunkData.Some? {
      var reviews := RenderRows(chunkData.value);
      var chunkText := Join(reviews, "\n");
      prompt := Some(Prompt(chunkFile, chunkText));
      var response := ask(chunkFile);
      if response.Answered? && |response.contents| > 0 && response.contents[0].Some? && response.contents[0].value != "" {
        var cleanedContent := CleanMarkdown(response.contents[0].value);
        analysis := Some(Analysis(AnalyzedPrefix + chunkFile, cleanedContent));
      }
    }
  }

  // ---------------------------------------------------------------------
  // Lemmas
  // ---------------------------------------------------------------------

  /**
   * A chunk is written exactly when its file loads and the first choice has
   * non-empty content; it is named analyzed_<chunk file> and holds that
   * content cleaned of markdown, so no '#', no three line breaks in a row and
   * no surrounding whitespace.
   */
  lemma AnalysisOfWritten(chunkFile: string, load: string -> Option<seq<ReviewRow>>, ask: string -> Completion)
    ensures AnalysisOf(chunkFile, load, ask).Some? <==> load(chunkFile).Some? && UsableContent(ask(chunkFile)).Some?
    ensures AnalysisOf(chunkFile, load, ask).Some? ==>
      var a := AnalysisOf(chunkFile, load, ask).value;
      && a.name == AnalyzedPrefix + chunkFile
      && a.response == CleanMarkdown(ask(chunkFile).contents[0].value)
      && '#' !in a.response && NoTripleBreak(a.response)
      && |a.response| <= |ask(chunkFile).contents[0].value|
  {
    if load(chunkFile).Some? && UsableContent(ask(chunkFile)).Some? {
      CleanMarkdownProperties(ask(chunkFile).contents[0].value);
    }
  }

  /**
   * Skip and continue: an analysis is written for a file exactly when that
   * file's own processing produces it, whatever happens to the other files.
   */
  lemma AnalysesAreIndependent(files: seq<string>, load: string -> Option<seq<ReviewRow>>, ask: string -> Completion)
    ensures |Analyses(files, load, ask)| <= |files|
    ensures forall a :: a in Analyses(files, load, ask) <==> exists f :: f in files && AnalysisOf(f, load, ask) == Some(a)
  {
    var xs := seq(|files|, i requires 0 <= i < |files| => AnalysisOf(files[i], load, ask));
    forall a: Analysis ensures Some(a) in xs <==> exists f :: f in files && AnalysisOf(f, load, ask) == Some(a) {
      if exists f :: f in files && AnalysisOf(f, load, ask) == Some(a) {
        var f :| f in files && AnalysisOf(f, load, ask) == Some(a);
        var i :| 0 <= i < |files| && files[i] == f;
        assert xs[i] == Some(a);
      }
    }
  }

  /** A prompt is sent for every file that loads, and holds its rendered reviews. */
  lemma PromptsForLoadedFiles(files: seq<string>, load: string -> Option<seq<ReviewRow>>)
    ensures |Prompts(files, load)| <= |files|
    ensures forall p :: p in Prompts(files, load) <==>
      p.chunkFile in files && load(p.chunkFile).Some? && p.text == ChunkText(load(p.chunkFile).value)
  {
    var xs := seq(|files|, i requires 0 <= i < |files| => PromptOf(files[i], load));
    forall p: Prompt ensures Some(p) in xs <==>
      p.chunkFile in files && load(p.chunkFile).Some? && p.text == ChunkText(load(p.chunkFile).value)
    {
      if p.chunkFile in files && load(p.chunkFile).Some? && p.text == ChunkText(load(p.chunkFile).value) {
        var i :| 0 <= i < |files| && files[i] == p.chunkFile;
        assert xs[i] == Some(p);
      }
    }
  }

  /** Every analysis is named after a chunk file of the list. */
  lemma AnalysisNamesFromFiles(files: seq<string>, load: string -> Option<seq<ReviewRow>>, ask: string -> Completion)
    ensures forall a :: a in Analyses(files, load, ask) ==> exists f :: f in files && a.name == AnalyzedPrefix + f
  {
    AnalysesAreIndependent(files, load, ask);
  }

  /** The analyzed names follow the chunk-file order: sorted files give sorted names. */
  lemma AnalysesInFileOrder(files: seq<string>, load: string -> Option<seq<ReviewRow>>, ask: string -> Completion)
    requires Sorted(files)
    ensures Sorted(Names(Analyses(files, load, ask)))
  {
    var xs := seq(|files|, i requires 0 <= i < |files| => AnalysisOf(files[i], load, ask));
    PresentNamesSorted(xs, files);
  }

  /** Analyses kept in the order of sorted files, each named after its file, have sorted names. */
  lemma {:induction false} PresentNamesSorted(xs: seq<Option<Analysis>>, files: seq<string>)
    requires |xs| == |files| && Sorted(files)
    requires forall i :: 0 <= i < |xs| && xs[i].Some? ==> xs[i].value.name == AnalyzedPrefix + files[i]
    ensures Sorted(Names(Present(xs)))
  {
    if xs != [] {
      var n := |xs| - 1;
      var init := xs[..n];
      PresentNamesSorted(init, files[..n]);
      if xs[n].Some? {
        var last := xs[n].value.name;
        NamesBelow(init, files[..n], files[n]);
        SortedSnoc(Names(Present(init)), last);
        assert Names(Present(xs)) == Names(Present(init)) + [last];
      } else {
        assert Names(Present(xs)) == Names(Present(init));
      }
    }
  }

  /** Analyses named after files that all sort before f have names that sort before the one for f. */
  lemma NamesBelow(xs: seq<Option<Analysis>>, files: seq<string>, f: string)
    requires |xs| == |files| && forall i :: 0 <= i < |files| ==> LexLe(files[i], f)
    requires forall i :: 0 <= i < |xs| && xs[i].Some? ==> xs[i].value.name == AnalyzedPrefix + files[i]
    ensures forall y :: y in Names(Present(xs)) ==> LexLe(y, AnalyzedPrefix + f)
  {
    forall y | y in Names(Present(xs)) ensures LexLe(y, AnalyzedPrefix + f) {
      var j :| 0 <= j < |Present(xs)| && Names(Present(xs))[j] == y;
      assert Present(xs)[j] in Present(xs);
      var i :| 0 <= i < |xs| && xs[i] == Some(Present(xs)[j]);
      PrefixPreservesOrder(AnalyzedPrefix, files[i], f);
    }
  }

  lemma SortedSnoc(xs: seq<string>, x: string)
    requires Sorted(xs) && forall y :: y in xs ==> LexLe(y, x)
    ensures Sorted(xs + [x])
  {
    var ys := xs + [x];
    forall i, j | 0 <= i < j < |ys| ensures LexLe(ys[i], ys[j]) {
      assert ys[i] in xs;
      if j < |xs| { assert ys[j] == xs[j]; }
    }
  }

  /** The names of the analyses, in order. */
  function Names(analyses: seq<Analysis>): (names: seq<string>)
    ensures |names| == |analyses| && forall i :: 0 <= i < |analyses| ==> names[i] == analyses[i].name
  {
    seq(|analyses|, i requires 0 <= i < |analyses| => analyses[i].name)
  }

  /** Putting the same prefix in front of two names keeps their order. */
  lemma {:induction false} PrefixPreservesOrder(p: string, a: string, b: string)
    requires LexLe(a, b)
    ensures LexLe(p + a, p + b)
  {
    if p != [] {
      PrefixPreservesOrder(p[1..], a, b);
      assert (p + a)[1..] == p[1..] + a;
      assert (p + b)[1..] == p[1..] + b;
      assert (p + a)[0] == p[0] == (p + b)[0];
    } else {
      assert p + a == a && p + b == b;
    }
  }

  /** When the first line is the shorter one, its line break falls inside the other line. */
  lemma BreakInsideLonger(x: string, u: string, y: string, v: string)
    requires |x| < |y| && x + "\n" + u == y + "\n" + v
    ensures '\n' in y
  {
    var s := x + "\n" + u;
    assert s[|x|] == '\n';
    assert y[|x|] == (y + "\n" + v)[|x|];
  }

  /** A line break is the only way to tell where a line ends: two lines and their rests agree. */
  lemma SameLine(x: string, u: string, y: string, v: string)
    requires '\n' !in x && '\n' !in y
    requires x + "\n" + u == y + "\n" + v
    ensures x == y && u == v
  {
    var s := x + "\n" + u;
    if |x| < |y| {
      BreakInsideLonger(x, u, y, v);
      assert false;
    } else if |y| < |x| {
      BreakInsideLonger(y, v, x, u);
      assert false;
    }
    assert x == s[..|x|] && y == s[..|y|];
    assert u == s[|x| + 1..] && v == s[|y| + 1..];
  }

  /** A row whose cells hold no line break. */
  predicate SingleLine(row: ReviewRow)
  {
    '\n' !in row.date && '\n' !in row.title && '\n' !in row.rating && '\n' !in row.description
  }

  /** A rendered review followed by more text, as its lines. */
  lemma RenderLines(row: ReviewRow, u: string)
    ensures RenderReview(row) + u
      == DateLine(row) + "\n" + (TitleLine(row) + "\n" + (RatingLine(row) + "\n" + (DescriptionLine(row) + "\n" + (Rule + u))))
  {
  }

  lemma LinesOfSingleLine(row: ReviewRow)
    requires SingleLine(row)
    ensures '\n' !in DateLine(row) && '\n' !in TitleLine(row) && '\n' !in RatingLine(row) && '\n' !in DescriptionLine(row)
  {
  }

  lemma LinesDetermineRow(a: ReviewRow, b: ReviewRow)
    requires DateLine(a) == DateLine(b) && TitleLine(a) == TitleLine(b)
    requires RatingLine(a) == RatingLine(b) && DescriptionLine(a) == DescriptionLine(b)
    ensures a == b
  {
    assert a.date == DateLine(a)[6..] && b.date == DateLine(b)[6..];
    assert a.title == TitleLine(a)[7..] && b.title == TitleLine(b)[7..];
    assert a.rating == RatingLine(a)[8..|RatingLine(a)| - 2] && b.rating == RatingLine(b)[8..|RatingLine(b)| - 2];
    assert a.description == DescriptionLine(a)[13..] && b.description == DescriptionLine(b)[13..];
  }

  /**
   * Rendering loses nothing: two single-line rows that render to the same
   * text, followed by the same or different rests, are the same row.
   */
  lemma RenderedRowsDiffer(a: ReviewRow, b: ReviewRow, u: string, v: string)
    requires SingleLine(a) && SingleLine(b)
    requires RenderReview(a) + u == RenderReview(b) + v
    ensures a == b && u == v
  {
    RenderLines(a, u);
    RenderLines(b, v);
    LinesOfSingleLine(a);
    LinesOfSingleLine(b);
    var a3, b3 := DescriptionLine(a) + "\n" + (Rule + u), DescriptionLine(b) + "\n" + (Rule + v);
    var a2, b2 := RatingLine(a) + "\n" + a3, RatingLine(b) + "\n" + b3;
    var a1, b1 := TitleLine(a) + "\n" + a2, TitleLine(b) + "\n" + b2;
    SameLine(DateLine(a), a1, DateLine(b), b1);
    SameLine(TitleLine(a), a2, TitleLine(b), b2);
    SameLine(RatingLine(a), a3, RatingLine(b), b3);
    SameLine(DescriptionLine(a), Rule + u, DescriptionLine(b), Rule + v);
    LinesDetermineRow(a, b);
    assert u == (Rule + u)[50..] && v == (Rule + v)[50..];
  }

  /** "\n".join puts the separator between the first item and the join of the rest. */
  lemma {:induction false} JoinFirst(x: string, xs: seq<string>, sep: string)
    requires |xs| >= 1
    ensures Join([x] + xs, sep) == x + sep + Join(xs, sep)
    decreases |xs|
  {
    if |xs| > 1 {
      var init := xs[..|xs| - 1];
      JoinFirst(x, init, sep);
      assert ([x] + xs)[..|xs|] == [x] + init;
    } else {
      assert [x] + xs == [x, xs[0]];
      assert [x, xs[0]][..1] == [x];
    }
  }

  /** The prompt of a non-empty chunk: its first review, then a line break and the prompt of the rest. */
  lemma ChunkTextFirst(rows: seq<ReviewRow>)
    requires rows != []
    ensures ChunkText(rows) == RenderReview(rows[0]) + (if |rows| > 1 then "\n" + ChunkText(rows[1..]) else "")
  {
    assert Rendered(rows) == [RenderReview(rows[0])] + Rendered(rows[1..]);
    if |rows| > 1 {
      JoinFirst(RenderReview(rows[0]), Rendered(rows[1..]), "\n");
    }
  }

  /** Equal prompts of two non-empty chunks start with the same row and go on with equal prompts. */
  lemma FirstRowsAgree(rs: seq<ReviewRow>, ts: seq<ReviewRow>)
    requires rs != [] && ts != [] && SingleLine(rs[0]) && SingleLine(ts[0])
    requires ChunkText(rs) == ChunkText(ts)
    ensures rs[0] == ts[0] && (|rs| > 1 <==> |ts| > 1)
    ensures |rs| > 1 ==> ChunkText(rs[1..]) == ChunkText(ts[1..])
  {
    var u := if |rs| > 1 then "\n" + ChunkText(rs[1..]) else "";
    var v := if |ts| > 1 then "\n" + ChunkText(ts[1..]) else "";
    ChunkTextFirst(rs);
    ChunkTextFirst(ts);
    RenderedRowsDiffer(rs[0], ts[0], u, v);
    if |rs| > 1 && |ts| > 1 {
      assert ChunkText(rs[1..]) == u[1..] == v[1..] == ChunkText(ts[1..]);
    }
  }

  /** Only the empty chunk has the empty prompt. */
  lemma EmptyPromptOnlyForEmptyChunk(rows: seq<ReviewRow>)
    ensures ChunkText(rows) == [] <==> rows == []
  {
    if rows != [] {
      ChunkTextFirst(rows);
    }
  }

  /** Every row of the chunk is single-line. */
  predicate AllSingleLine(rows: seq<ReviewRow>)
  {
    forall i :: 0 <= i < |rows| ==> SingleLine(rows[i])
  }

  lemma SameHeadSameTail(rs: seq<ReviewRow>, ts: seq<ReviewRow>)
    requires rs != [] && ts != [] && rs[0] == ts[0] && rs[1..] == ts[1..]
    ensures rs == ts
  {
    assert rs == [rs[0]] + rs[1..] && ts == [ts[0]] + ts[1..];
  }

  lemma SingleLineParts(rows: seq<ReviewRow>)
    requires rows != [] && AllSingleLine(rows)
    ensures SingleLine(rows[0]) && AllSingleLine(rows[1..])
  {
  }

  /**
   * The prompt determines the chunk: two chunks of single-line rows whose
   * prompts are equal hold the same rows in the same order.
   */
  lemma {:induction false} ChunkTextDeterminesRows(rs: seq<ReviewRow>, ts: seq<ReviewRow>)
    requires AllSingleLine(rs) && AllSingleLine(ts)
    requires ChunkText(rs) == ChunkText(ts)
    ensures rs == ts
  {
    EmptyPromptOnlyForEmptyChunk(rs);
    EmptyPromptOnlyForEmptyChunk(ts);
    if rs != [] {
      SingleLineParts(rs);
      SingleLineParts(ts);
      FirstRowsAgree(rs, ts);
      if |rs| > 1 {
        ChunkTextDeterminesRows(rs[1..], ts[1..]);
      }
      SameHeadSameTail(rs, ts);
    }
  }

  /**
   * With the nine chunks the chunker writes at most, data-chunks holds only
   * one-digit chunk names, and sorting them gives back chunk order: chunk 1
   * is sent first, then chunk 2, and so on.
   */
  lemma ChunksProcessedInOrder(baseName: string, n: nat, listing: seq<string>)
    requires n <= Chunker.MaxChunks
    requires multiset(listing) == multiset(Chunker.ChunkNames(baseName, n))
    ensures ChunkFiles(listing) == Chunker.ChunkNames(baseName, n)
  {
    forall x | x in listing ensures HasSuffix(x, ChunkSuffix) {
      assert x in multiset(listing);
      assert x in Chunker.ChunkNames(baseName, n);
    }
    FilterSuffixKeepsAll(listing, ChunkSuffix);
    Chunker.SortedNamesInChunkOrder(baseName, n, listing);
  }
}
