/**
 * compile_analyzed_files: the "analyzed_" files of analyzed-chunks, in sorted
 * order, are loaded one by one and the "response" of each is appended to the
 * "analyses" list of one combined object; a file that fails to load or has no
 * "response" is reported and skipped. The main script's variant keeps only the
 * response and names the output summarized_reviews_<stamp>.json; the sentiment
 * script's variant also records the file name, adds a metadata object whose
 * total_files counts every "analyzed_" file, and names the output
 * sentiment_analysis_<stamp>.json.
 *
 * Loading a file is a parameter (`read`, None when opening or parsing raises);
 * clock readings are the parameters `stamp` and `now`.
 */
module Aggregator {
  import opened Text
  import opened Wrappers
  import opened Json
  import opened Listing
  import JourneyMapper
  import BatchSummarizer

  const OutputDir: string := "summarized-reviews"
  const SummaryFilePrefix: string := "summarized_reviews_"
  const SentimentFilePrefix: string := "sentiment_analysis_"
  const Source: string := "British Airways Trustpilot Reviews"

  /** analysis["response"] of a loaded file; None when loading or the lookup raises. */
  function ResponseOf(loaded: Option<Value>): (r: Option<Value>)
    ensures r.Some? <==> loaded.Some? && loaded.value.Dict? && "response" in loaded.value.fields
    ensures r.Some? ==> r.value == loaded.value.fields["response"]
  {
    match loaded
    case Some(Dict(fields)) => if "response" in fields then Some(fields["response"]) else None
    case _ => None
  }

  /** sorted([f for f in os.listdir(analyzed_dir) if f.startswith('analyzed_')]) */
  function AnalyzedFiles(listing: seq<string>): (files: seq<string>)
    ensures Sorted(files) && |files| == |FilterPrefix(listing, BatchSummarizer.AnalyzedPrefix)|
    ensures forall f :: f in files <==> f in listing && HasPrefix(f, BatchSummarizer.AnalyzedPrefix)
  {
    var files := Sort(FilterPrefix(listing, BatchSummarizer.AnalyzedPrefix));
    assert forall f :: f in files <==> f in multiset(FilterPrefix(listing, BatchSummarizer.AnalyzedPrefix));
    assert |files| == |multiset(files)|;
    files
  }

  /** The entry the main script appends for a file: {"analysis": response}. */
  function EntryOf(file: string, read: string -> Option<Value>): Option<Value>
  {
    match ResponseOf(read(file))
    case Some(response) => Some(Dict(map["analysis" := response]))
    case None => None
  }

  /** The entry the sentiment script appends for a file: {"file": name, "analysis": response}. */
  function SentimentEntryOf(file: string, read: string -> Option<Value>): Option<Value>
  {
    match ResponseOf(read(file))
    case Some(response) => Some(Dict(map["file" := Str(file), "analysis" := response]))
    case None => None
  }

  /** Which of the two scripts' compile step runs. */
  datatype Variant = MainScript | SentimentScript

  function EntryFor(variant: Variant, file: string, read: string -> Option<Value>): Option<Value>
  {
    match variant
    case MainScript => EntryOf(file, read)
    case SentimentScript => SentimentEntryOf(file, read)
  }

  /** The "analyses" list built over the files, in order. */
  function Entries(variant: Variant, files: seq<string>, read: string -> Option<Value>): seq<Value>
  {
    Present(seq(|files|, i requires 0 <= i < |files| => EntryFor(variant, files[i], read)))
  }

  /** The metadata object of the sentiment script. */
  function Metadata(totalFiles: nat, now: string): Value
  {
    Dict(map["total_files" := Int(totalFiles), "timestamp" := Str(now), "source" := Str(Source)])
  }

  /** The loop shared by both variants: one append per file that loads and has a response. */
  method CollectAnalyses(variant: Variant, analyzedFiles: seq<string>, read: string -> Option<Value>)
    returns (analyses: seq<Value>)
    ensures analyses == Entries(variant, analyzedFiles, read)
  {
    ghost var entries := seq(|analyzedFiles|, i requires 0 <= i < |analyzedFiles| => EntryFor(variant, analyzedFiles[i], read));
    analyses := [];
    var i := 0;
    while i < |analyzedFiles|
      invariant 0 <= i <= |analyzedFiles|
      invariant analyses == Present(entries[..i])
    {
      var file := analyzedFiles[i];
      PresentStep(entries, i);
      var analysis := read(file);
      if analysis.Some? && analysis.value.Dict? && "response" in analysis.value.fields {
        var response := analysis.value.fields["response"];
        if variant == MainScript {
          analyses := analyses + [Dict(map["analysis" := response])];
        } else {
          analyses := analyses + [Dict(map["file" := Str(file), "analysis" := response])];
        }
      }
      i := i + 1;
    }
    assert entries[..i] == entries;
  }

  /** main.py's compile_analyzed_files: the output path and the combined object it dumps there. */
  method CompileAnalyzedFiles(listing: seq<string>, read: string -> Option<Value>, stamp: string)
    returns (outputFile: string, combined: Value)
    ensures outputFile == PathJoin(OutputDir, SummaryFilePrefix + stamp + ".json")
    ensures combined == Dict(map["analyses" := List(Entries(MainScript, AnalyzedFiles(listing), read))])
  {
    var analyzedFiles := Sort(FilterPrefix(listing, BatchSummarizer.AnalyzedPrefix));
    var analyses := CollectAnalyses(MainScript, analyzedFiles, read);
    combined := Dict(map["analyses" := List(analyses)]);
    outputFile := PathJoin(OutputDir, SummaryFilePrefix + stamp + ".json");
  }

  /** sentiment.py's compile_analyzed_files, with file names and metadata. */
  method SentimentCompileAnalyzedFiles(listing: seq<string>, read: string -> Option<Value>, now: string, stamp: string)
    returns (outputFile: string, combined: Value)
    ensures outputFile == PathJoin(OutputDir, SentimentFilePrefix + stamp + ".json")
    ensures combined == Dict(map[
      "metadata" := Metadata(|AnalyzedFiles(listing)|, now),
      "analyses" := List(Entries(SentimentScript, AnalyzedFiles(listing), read))])
  {
    var analyzedFiles := Sort(FilterPrefix(listing, BatchSummarizer.AnalyzedPrefix));
    var analyses := CollectAnalyses(SentimentScript, analyzedFiles, read);
    combined := Dict(map["metadata" := Metadata(|analyzedFiles|, now), "analyses" := List(analyses)]);
    outputFile := PathJoin(OutputDir, SentimentFilePrefix + stamp + ".json");
  }

  // ---------------------------------------------------------------------
  // Lemmas
  // ---------------------------------------------------------------------

  /**
   * Skipping is per file: an entry is in the list exactly when some file
   * yields it, and there are never more entries than files.
   */
  lemma EntriesArePerFile(variant: Variant, files: seq<string>, read: string -> Option<Value>)
    ensures |Entries(variant, files, read)| <= |files|
    ensures forall e :: e in Entries(variant, files, read) <==> exists f :: f in files && EntryFor(variant, f, read) == Some(e)
  {
    var xs := seq(|files|, i requires 0 <= i < |files| => EntryFor(variant, files[i], read));
    forall e: Value ensures Some(e) in xs <==> exists f :: f in files && EntryFor(variant, f, read) == Some(e) {
      if exists f :: f in files && EntryFor(variant, f, read) == Some(e) {
        var f :| f in files && EntryFor(variant, f, read) == Some(e);
        var i :| 0 <= i < |files| && files[i] == f;
        assert xs[i] == Some(e);
      }
    }
  }

  /** When every file has a response, there is one entry per file, in file order. */
  lemma {:induction false} AllReadableAllListed(variant: Variant, files: seq<string>, read: string -> Option<Value>)
    requires forall f :: f in files ==> ResponseOf(read(f)).Some?
    ensures |Entries(variant, files, read)| == |files|
    ensures forall i :: 0 <= i < |files| ==> Some(Entries(variant, files, read)[i]) == EntryFor(variant, files[i], read)
  {
    var xs := seq(|files|, i requires 0 <= i < |files| => EntryFor(variant, files[i], read));
    AllPresent(xs);
  }

  lemma {:induction false} AllPresent<T(!new)>(xs: seq<Option<T>>)
    requires forall i :: 0 <= i < |xs| ==> xs[i].Some?
    ensures |Present(xs)| == |xs|
    ensures forall i :: 0 <= i < |xs| ==> Some(Present(xs)[i]) == xs[i]
  {
    if xs != [] {
      AllPresent(xs[..|xs| - 1]);
    }
  }

  /** One missing response is enough to make the list shorter than the file count. */
  lemma {:induction false} SkippedFileShortens<T(!new)>(xs: seq<Option<T>>, k: nat)
    requires k < |xs| && xs[k].None?
    ensures |Present(xs)| < |xs|
  {
    var init := xs[..|xs| - 1];
    if k < |xs| - 1 {
      SkippedFileShortens(init, k);
    }
  }

  /**
   * total_files counts the "analyzed_" files, not the analyses: it exceeds
   * the number of entries as soon as one of those files is skipped.
   */
  lemma TotalFilesCountsSkipped(listing: seq<string>, read: string -> Option<Value>, skipped: string)
    requires skipped in listing && HasPrefix(skipped, BatchSummarizer.AnalyzedPrefix) && ResponseOf(read(skipped)).None?
    ensures |Entries(SentimentScript, AnalyzedFiles(listing), read)| < |AnalyzedFiles(listing)|
  {
    var files := AnalyzedFiles(listing);
    var xs := seq(|files|, i requires 0 <= i < |files| => EntryFor(SentimentScript, files[i], read));
    var k :| 0 <= k < |files| && files[k] == skipped;
    SkippedFileShortens(xs, k);
  }

  /** The sentiment entries name their files, in sorted order and each once. */
  lemma {:induction false} SentimentEntriesNameFiles(files: seq<string>, read: string -> Option<Value>)
    ensures forall e :: e in Entries(SentimentScript, files, read) ==>
      e.Dict? && "file" in e.fields && e.fields["file"].Str? && e.fields["file"].s in files
      && "analysis" in e.fields && Some(e.fields["analysis"]) == ResponseOf(read(e.fields["file"].s))
  {
    EntriesArePerFile(SentimentScript, files, read);
  }

  /**
   * The hand-off from process_chunks: when analyzed-chunks lists exactly the
   * files the loop wrote (in any order) and each loads as the object it
   * dumped, the main script's analyses are the cleaned responses in the
   * order the chunks were processed.
   */
  lemma CompiledInProcessingOrder(chunkListing: seq<string>, load: string -> Option<seq<BatchSummarizer.ReviewRow>>,
                                  ask: string -> BatchSummarizer.Completion, listing: seq<string>, read: string -> Option<Value>)
    requires var written := BatchSummarizer.Analyses(BatchSummarizer.ChunkFiles(chunkListing), load, ask);
      && multiset(listing) == multiset(BatchSummarizer.Names(written))
      && forall a :: a in written ==> read(a.name) == Some(Dict(map["response" := Str(a.response)]))
    ensures var written := BatchSummarizer.Analyses(BatchSummarizer.ChunkFiles(chunkListing), load, ask);
      var entries := Entries(MainScript, AnalyzedFiles(listing), read);
      && |entries| == |written|
      && forall i :: 0 <= i < |written| ==> entries[i] == Dict(map["analysis" := Str(written[i].response)])
  {
    var files := BatchSummarizer.ChunkFiles(chunkListing);
    var written := BatchSummarizer.Analyses(files, load, ask);
    BatchSummarizer.AnalysesInFileOrder(files, load, ask);
    BatchSummarizer.AnalysisNamesFromFiles(files, load, ask);
    forall a | a in written ensures HasPrefix(a.name, BatchSummarizer.AnalyzedPrefix) {
      var f :| f in files && a.name == BatchSummarizer.AnalyzedPrefix + f;
    }
    CompiledFromWritten(written, listing, read);
  }

  /** The same hand-off for any sorted list of written analyses. */
  lemma CompiledFromWritten(written: seq<BatchSummarizer.Analysis>, listing: seq<string>, read: string -> Option<Value>)
    requires Sorted(BatchSummarizer.Names(written))
    requires forall a :: a in written ==> HasPrefix(a.name, BatchSummarizer.AnalyzedPrefix)
    requires multiset(listing) == multiset(BatchSummarizer.Names(written))
    requires forall a :: a in written ==> read(a.name) == Some(Dict(map["response" := Str(a.response)]))
    ensures var entries := Entries(MainScript, AnalyzedFiles(listing), read);
      && |entries| == |written|
      && forall i :: 0 <= i < |written| ==> entries[i] == Dict(map["analysis" := Str(written[i].response)])
  {
    var names := BatchSummarizer.Names(written);
    ListedNamesAreAnalyzedFiles(names, listing);
    forall i | 0 <= i < |names|
      ensures EntryFor(MainScript, names[i], read) == Some(Dict(map["analysis" := Str(written[i].response)]))
    {
      assert written[i] in written;
      EntryOfDumped(names[i], read, written[i].response);
    }
    forall f | f in names ensures ResponseOf(read(f)).Some? {
      var i :| 0 <= i < |names| && names[i] == f;
    }
    AllReadableAllListed(MainScript, names, read);
  }

  /** A file dumped as {"response": r} contributes {"analysis": r}. */
  lemma EntryOfDumped(file: string, read: string -> Option<Value>, response: string)
    requires read(file) == Some(Dict(map["response" := Str(response)]))
    ensures EntryFor(MainScript, file, read) == Some(Dict(map["analysis" := Str(response)]))
  {
  }

  /** A directory holding exactly some sorted "analyzed_" names is read back in that order. */
  lemma ListedNamesAreAnalyzedFiles(names: seq<string>, listing: seq<string>)
    requires Sorted(names) && forall n :: n in names ==> HasPrefix(n, BatchSummarizer.AnalyzedPrefix)
    requires multiset(listing) == multiset(names)
    ensures AnalyzedFiles(listing) == names
  {
    forall n | n in listing ensures HasPrefix(n, BatchSummarizer.AnalyzedPrefix) {
      assert n in multiset(listing);
      assert n in names;
    }
    FilterPrefixKeepsAll(listing, BatchSummarizer.AnalyzedPrefix);
    SortedUnique(Sort(listing), names);
  }

  /**
   * The main script's output lands where the journey mapper looks: in
   * summarized-reviews, under the prefix it selects by, so that directory's
   * latest summary exists once the file is there.
   */
  lemma MapperFindsCompiledFile(stamp: string, summaryListing: seq<string>)
    requires SummaryFilePrefix + stamp + ".json" in summaryListing
    ensures OutputDir == JourneyMapper.SummaryDir && SummaryFilePrefix == JourneyMapper.SummaryPrefix
    ensures LatestWithPrefix(summaryListing, JourneyMapper.SummaryPrefix).Found?
  {
    var name := SummaryFilePrefix + stamp + ".json";
    assert HasPrefix(name, JourneyMapper.SummaryPrefix);
    LatestIsGreatest(summaryListing, JourneyMapper.SummaryPrefix);
  }
}
