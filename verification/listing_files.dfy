/** The file-based listing tracker of app/property24.py: `_read_urls`,
    `_write_urls` and `ListingTracker.record`. The file system is a map from
    path to text; a path that is not in the map does not exist. Creating
    parent directories is not modelled. */
module ListingFiles {
  import opened Text
  import opened Seqs
  import SnapshotStore

  type Files = map<string, string>

  /** The three files of one tracker. */
  datatype TrackerPaths = TrackerPaths(listingFile: string, previousFile: string, newFile: string)

  predicate Distinct(p: TrackerPaths) {
    p.listingFile != p.previousFile && p.listingFile != p.newFile && p.previousFile != p.newFile
  }

  /** A URL that survives a write and a read unchanged: not blank, no
      surrounding white space, no line break. */
  predicate IsCleanUrl(u: string) {
    u != "" && Strip(u) == u && NoCharIn(u, IsLineBreak)
  }

  predicate AllClean(urls: seq<string>) {
    forall i :: 0 <= i < |urls| ==> IsCleanUrl(urls[i])
  }

  /** `[line.strip() for line in lines if line.strip()]`. */
  function KeptLines(lines: seq<string>): (r: seq<string>)
    ensures |r| <= |lines|
  {
    if |lines| == 0 then []
    else
      var line := Strip(lines[0]);
      (if line != "" then [line] else []) + KeptLines(lines[1..])
  }

  /** `_read_urls(path)`: a missing file reads as no URLs; otherwise the
      stripped non-blank lines. Splitting at every line-break character
      instead of at `splitlines` boundaries only adds blank pieces (between
      `\r` and `\n`, or after the last break), and those are dropped. */
  function ReadUrls(fs: Files, path: string): (r: seq<string>)
    ensures path !in fs ==> r == []
    // Every URL read is stripped, non-blank and on one line.
    ensures AllClean(r)
    // A file of one line reads as that line stripped, or as nothing when
    // the line is blank.
    ensures path in fs && NoCharIn(fs[path], IsLineBreak) ==>
      r == (if Strip(fs[path]) != "" then [Strip(fs[path])] else [])
  {
    if path !in fs then []
    else
      var lines := Split(fs[path], IsLineBreak);
      KeptLinesClean(lines);
      assert NoCharIn(fs[path], IsLineBreak) ==> lines == [fs[path]] by {
        if NoCharIn(fs[path], IsLineBreak) {
          SplitPrefix(fs[path], "", IsLineBreak);
          assert fs[path] + "" == fs[path];
        }
      }
      KeptLines(lines)
  }

  /** The text `_write_urls` writes: the URLs one per line, each line
      terminated, and nothing at all for no URLs. */
  function UrlsText(urls: seq<string>): (t: string)
    ensures t == "" <==> urls == [] || urls == [""]
  {
    var text := Join("\n", urls);
    if text != "" then text + "\n" else ""
  }

  /** `_write_urls(path, urls)`: the file is created or replaced. */
  function WriteUrls(fs: Files, path: string, urls: seq<string>): (r: Files)
    ensures path in r && r[path] == UrlsText(urls)
    ensures forall q :: q != path ==> (q in r <==> q in fs) && (q in fs ==> r[q] == fs[q])
  {
    fs[path := UrlsText(urls)]
  }

  /** `path.write_text("")` when the file exists; nothing otherwise. */
  function EmptyIfExists(fs: Files, path: string): (r: Files)
    ensures r.Keys == fs.Keys
    ensures path in fs ==> r[path] == ""
    ensures forall q :: q != path && q in fs ==> r[q] == fs[q]
  {
    if path in fs then fs[path := ""] else fs
  }

  datatype Recorded = Recorded(newUrls: seq<string>, files: Files)

  /** `ListingTracker.record(urls)`. */
  function Record(fs: Files, paths: TrackerPaths, urls: seq<string>): (r: Recorded)
    ensures Distinct(paths) ==>
      var before := ReadUrls(fs, paths.listingFile);
      && paths.listingFile in r.files && r.files[paths.listingFile] == UrlsText(urls)
      && (before != [] ==> paths.previousFile in r.files && r.files[paths.previousFile] == UrlsText(before))
      && (before == [] ==> (paths.previousFile in r.files <==> paths.previousFile in fs))
      && (before == [] && paths.previousFile in fs ==> r.files[paths.previousFile] == "")
      && (r.newUrls != [] ==> paths.newFile in r.files && r.files[paths.newFile] == UrlsText(r.newUrls))
      && (r.newUrls == [] ==> (paths.newFile in r.files <==> paths.newFile in fs))
      && (r.newUrls == [] && paths.newFile in fs ==> r.files[paths.newFile] == "")
    ensures forall q :: q != paths.listingFile && q != paths.previousFile && q != paths.newFile ==>
      (q in r.files <==> q in fs) && (q in fs ==> r.files[q] == fs[q])
  {
    var previousUrls := ReadUrls(fs, paths.listingFile);
    var previousSet := set u | u in previousUrls;
    var fs1 := if previousUrls != [] then WriteUrls(fs, paths.previousFile, previousUrls)
               else EmptyIfExists(fs, paths.previousFile);
    var fs2 := WriteUrls(fs1, paths.listingFile, urls);
    var newUrls := Minus(urls, previousSet);
    var fs3 := if newUrls != [] then WriteUrls(fs2, paths.newFile, newUrls)
               else EmptyIfExists(fs2, paths.newFile);
    Recorded(newUrls, fs3)
  }

  // ---------------------------------------------------------------------
  // Properties

  /** The URLs reported new are those of `urls` that the listing file did
      not hold, each as often as in `urls`. */
  lemma RecordNewUrls(fs: Files, paths: TrackerPaths, urls: seq<string>)
    ensures
      var r := Record(fs, paths, urls);
      var before := ReadUrls(fs, paths.listingFile);
      && (forall u :: u in r.newUrls <==> u in urls && u !in before)
      && (forall u :: multiset(r.newUrls)[u] == if u in before then 0 else multiset(urls)[u])
  {
    MinusFacts(urls, set u | u in ReadUrls(fs, paths.listingFile));
  }

  lemma KeptLinesCons(u: string, rest: seq<string>)
    requires IsCleanUrl(u)
    ensures KeptLines([u] + rest) == [u] + KeptLines(rest)
  {
    assert ([u] + rest)[1..] == rest;
  }

  lemma KeptLinesBlank()
    ensures KeptLines([""]) == []
  {
    assert Strip("") == "";
  }

  lemma AllCleanTail(urls: seq<string>)
    requires |urls| > 0 && AllClean(urls)
    ensures AllClean(urls[1..])
  {
    forall i | 0 <= i < |urls| - 1 ensures IsCleanUrl(urls[1..][i]) {
      assert urls[1..][i] == urls[i + 1];
    }
  }

  lemma KeptLinesOfCleanStep(urls: seq<string>)
    requires |urls| > 0 && IsCleanUrl(urls[0])
    requires KeptLines(urls[1..] + [""]) == urls[1..]
    ensures KeptLines(urls + [""]) == urls
  {
    ConsSnoc(urls, "");
    KeptLinesCons(urls[0], urls[1..] + [""]);
    assert [urls[0]] + urls[1..] == urls;
  }

  lemma {:induction false} KeptLinesOfClean(urls: seq<string>)
    requires AllClean(urls)
    ensures KeptLines(urls + [""]) == urls
  {
    if |urls| == 0 {
      assert urls + [""] == [""];
      KeptLinesBlank();
    } else {
      AllCleanTail(urls);
      KeptLinesOfClean(urls[1..]);
      KeptLinesOfCleanStep(urls);
    }
  }

  lemma {:induction false} JoinSnocEmpty(parts: seq<string>)
    requires |parts| >= 1
    ensures Join("\n", parts + [""]) == Join("\n", parts) + "\n"
  {
    if |parts| == 1 {
      assert (parts + [""])[1..] == [""];
    } else {
      assert (parts + [""])[1..] == parts[1..] + [""];
      JoinSnocEmpty(parts[1..]);
      assert Join("\n", parts + [""]) == parts[0] + "\n" + (Join("\n", parts[1..]) + "\n");
    }
  }

  lemma JoinOfNonEmptyHead(urls: seq<string>)
    requires |urls| >= 1 && urls[0] != ""
    ensures Join("\n", urls) != ""
  {
    if |urls| > 1 {
      assert Join("\n", urls) == urls[0] + "\n" + Join("\n", urls[1..]);
    }
  }

  lemma SplitUrlsText(urls: seq<string>)
    requires AllClean(urls) && urls != []
    ensures Split(UrlsText(urls), IsLineBreak) == urls + [""]
  {
    assert IsCleanUrl(urls[0]);
    JoinOfNonEmptyHead(urls);
    JoinSnocEmpty(urls);
    var parts := urls + [""];
    assert IsLineBreak('\n');
    forall k | 0 <= k < |parts| ensures NoCharIn(parts[k], IsLineBreak) {
      if k < |urls| {
        assert parts[k] == urls[k] && IsCleanUrl(urls[k]);
      }
    }
    SplitJoin(parts, '\n', IsLineBreak);
  }

  /** Reading back what `_write_urls` wrote gives the URLs, provided each
      one is clean. */
  lemma ReadWriteRoundTrip(fs: Files, path: string, urls: seq<string>)
    requires AllClean(urls)
    ensures ReadUrls(WriteUrls(fs, path, urls), path) == urls
  {
    if urls == [] {
      assert Split("", IsLineBreak) == [""];
      KeptLinesBlank();
    } else {
      SplitUrlsText(urls);
      KeptLinesOfClean(urls);
    }
  }

  lemma StrippedPieceIsClean(line: string)
    requires NoCharIn(line, IsLineBreak) && Strip(line) != ""
    ensures IsCleanUrl(Strip(line))
  {
    var t := Strip(line);
    TrimKeptEnds(t, IsSpace);
    var k := LeadCount(line, IsSpace);
    forall i | 0 <= i < |t| ensures !IsLineBreak(t[i]) {
      assert t[i] == line[k + i];
    }
  }

  lemma {:induction false} KeptLinesClean(lines: seq<string>)
    requires forall k :: 0 <= k < |lines| ==> NoCharIn(lines[k], IsLineBreak)
    ensures AllClean(KeptLines(lines))
  {
    if |lines| > 0 {
      KeptLinesClean(lines[1..]);
      if Strip(lines[0]) != "" {
        StrippedPieceIsClean(lines[0]);
      }
    }
  }

  /** Whatever a file holds, `_read_urls` gives clean URLs; so writing them
      back and reading again gives the same list. */
  lemma ReadUrlsClean(fs: Files, path: string)
    ensures AllClean(ReadUrls(fs, path))
    ensures ReadUrls(WriteUrls(fs, path, ReadUrls(fs, path)), path) == ReadUrls(fs, path)
  {
    ReadWriteRoundTrip(fs, path, ReadUrls(fs, path));
  }

  /** The first record into an empty listing file reports every URL as new
      and does not create the previous file. */
  lemma FirstRecord(fs: Files, paths: TrackerPaths, urls: seq<string>)
    requires Distinct(paths) && paths.listingFile !in fs && paths.previousFile !in fs
    requires AllClean(urls) && NoDups(urls)
    ensures Record(fs, paths, urls).newUrls == urls
    ensures paths.previousFile !in Record(fs, paths, urls).files
    ensures ReadUrls(Record(fs, paths, urls).files, paths.listingFile) == urls
    ensures ReadUrls(Record(fs, paths, urls).files, paths.newFile) == urls
  {
    var none: seq<string> := [];
    MinusDisjoint(urls, set u | u in none);
    var r := Record(fs, paths, urls);
    ReadWriteRoundTrip(fs, paths.listingFile, urls);
    ReadWriteRoundTrip(fs, paths.newFile, urls);
    assert ReadUrls(r.files, paths.listingFile) == ReadUrls(WriteUrls(fs, paths.listingFile, urls), paths.listingFile);
    if urls != [] {
      assert ReadUrls(r.files, paths.newFile) == ReadUrls(WriteUrls(fs, paths.newFile, urls), paths.newFile);
    } else {
      assert paths.newFile in r.files ==> r.files[paths.newFile] == "";
      assert Split("", IsLineBreak) == [""];
      assert Strip("") == "";
    }
  }

  /** A second record: the new URLs are those not recorded the first time,
      and the previous file holds the first list. */
  lemma SecondRecord(fs: Files, paths: TrackerPaths, first: seq<string>, second: seq<string>)
    requires Distinct(paths) && paths.listingFile !in fs
    requires AllClean(first) && first != [] && AllClean(second)
    ensures
      var r1 := Record(fs, paths, first);
      var r2 := Record(r1.files, paths, second);
      && r2.newUrls == Minus(second, set u | u in first)
      && ReadUrls(r2.files, paths.previousFile) == first
      && ReadUrls(r2.files, paths.listingFile) == second
  {
    var r1 := Record(fs, paths, first);
    ReadWriteRoundTrip(fs, paths.listingFile, first);
    assert ReadUrls(r1.files, paths.listingFile) == ReadUrls(WriteUrls(fs, paths.listingFile, first), paths.listingFile);
    var r2 := Record(r1.files, paths, second);
    ReadWriteRoundTrip(r1.files, paths.previousFile, first);
    assert ReadUrls(r2.files, paths.previousFile) == ReadUrls(WriteUrls(r1.files, paths.previousFile, first), paths.previousFile);
    ReadWriteRoundTrip(fs, paths.listingFile, second);
    assert ReadUrls(r2.files, paths.listingFile) == ReadUrls(WriteUrls(fs, paths.listingFile, second), paths.listingFile);
  }

  /** The file tracker and the database store agree: with the same listing
      before, both report the same new URLs in the same order. */
  lemma RecordAgreesWithStore(fs: Files, paths: TrackerPaths, urls: seq<string>, s: SnapshotStore.Store)
    requires ReadUrls(fs, paths.listingFile) == SnapshotStore.CurrentListings(s)
    ensures Record(fs, paths, urls).newUrls == SnapshotStore.UpdateCurrentListings(s, urls, SnapshotStore.Commit).result.value
  {
  }
}
