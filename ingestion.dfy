/**
 * Corpus ingestion, readAllFilesContent of index.js: the matching files of
 * the source folder are read and parsed in listing order, each file is
 * moved to the processed folder once its records have been appended, and
 * the flattened records are numbered by their global position.
 *
 * Reading a file and `JSON.parse` are one abstract step, `parse`, that
 * yields the file's records or fails; `readdir` is the `listing` the
 * caller passes in.
 */
module Ingestion {
  import opened Wrappers
  import opened IdCodec
  import opened Loaders

  /** `entry.metadata` of a parsed record. */
  datatype Metadata = Metadata(fillerId: int)

  /** One parsed JSON record: `{ pageContent, metadata: { fillerID } }`. */
  datatype Record = Record(pageContent: string, metadata: Metadata)

  /** What readAllFilesContent returns: `{ contents, ids }`. */
  datatype Corpus = Corpus(contents: seq<string>, ids: seq<int>)

  /** A file that could not be read or whose content `JSON.parse` rejected. */
  datatype IngestError = Unparsable(fileName: string)

  /** Every record's category lies in the range the codec reserves for it. */
  predicate CategoriesInRange(records: seq<Record>)
  {
    forall i :: 0 <= i < |records| ==> 0 <= records[i].metadata.fillerId < FillerSpan
  }

  /**
   * `[...jsonContent, ...JSON.parse(content)]`, folded over the files in
   * order. The result holds as many records as all files together.
   */
  function Flatten(files: seq<seq<Record>>): (records: seq<Record>)
    ensures |records| == TotalRecords(files)
  {
    if files == [] then [] else Flatten(files[..|files| - 1]) + files[|files| - 1]
  }

  /** The number of records in all files together. */
  function TotalRecords(files: seq<seq<Record>>): nat
  {
    if files == [] then 0 else TotalRecords(files[..|files| - 1]) + |files[|files| - 1]|
  }

  /** `contents` as the forEach builds it: each record's `pageContent`. */
  function PageContents(records: seq<Record>): seq<string>
  {
    seq(|records|, i requires 0 <= i < |records| => records[i].pageContent)
  }

  /** `ids` as the forEach builds it: createID of the global index and the category. */
  function AssignIds(records: seq<Record>): seq<int>
  {
    seq(|records|, i requires 0 <= i < |records| => CreateId(i, records[i].metadata.fillerId))
  }

  /** The corpus readAllFilesContent returns once every file has been folded in. */
  function CorpusOf(records: seq<Record>): Corpus
  {
    Corpus(PageContents(records), AssignIds(records))
  }

  /**
   * The position of the first file that cannot be parsed, or the number of
   * files when all of them can.
   */
  function FirstFailure(names: seq<string>, parse: string -> Option<seq<Record>>): (k: nat)
    ensures k <= |names|
    ensures forall j :: 0 <= j < k ==> parse(names[j]).Some?
    ensures k < |names| ==> parse(names[k]).None?
  {
    if names == [] || parse(names[0]).None? then 0
    else 1 + FirstFailure(names[1..], parse)
  }

  /** The parsed contents of the first `n` files, all of which parse. */
  function ParsedFiles(names: seq<string>, parse: string -> Option<seq<Record>>, n: nat): seq<seq<Record>>
    requires n <= FirstFailure(names, parse)
  {
    seq(n, j requires 0 <= j < n => parse(names[j]).value)
  }

  /**
   * What a run over `names` returns. It succeeds exactly when every
   * matching file parses, and its corpus then holds every record of every
   * file. A failed run names a file that does not parse, all files before
   * it having parsed.
   */
  function Ingest(names: seq<string>, parse: string -> Option<seq<Record>>): (r: Result<Corpus, IngestError>)
    ensures r.Success? <==> forall j :: 0 <= j < |names| ==> parse(names[j]).Some?
    ensures r.Success? ==>
              |r.value.contents| == |r.value.ids| == TotalRecords(ParsedFiles(names, parse, |names|))
    ensures r.Failure? ==>
              exists k :: 0 <= k < |names| && r.error == Unparsable(names[k]) &&
                          parse(names[k]).None? && forall j :: 0 <= j < k ==> parse(names[j]).Some?
  {
    var k := FirstFailure(names, parse);
    if k == |names| then Success(CorpusOf(Flatten(ParsedFiles(names, parse, k))))
    else Failure(Unparsable(names[k]))
  }

  /** The names of the first `n` files. */
  function FirstNames(names: seq<string>, n: nat): set<string>
    requires n <= |names|
  {
    set j | 0 <= j < n :: names[j]
  }

  /**
   * Record `o` of file `j` sits in the flattened corpus after all records
   * of the files before it: positions are global, not per file.
   */
  lemma {:induction false} FlattenAt(files: seq<seq<Record>>, j: nat, o: nat)
    requires j < |files| && o < |files[j]|
    ensures |Flatten(files[..j])| + o < |Flatten(files)|
    ensures Flatten(files)[|Flatten(files[..j])| + o] == files[j][o]
  {
    var n := |files| - 1;
    if j == n {
      assert files[..n] == files[..j];
    } else {
      assert files[..n][..j] == files[..j];
      FlattenAt(files[..n], j, o);
    }
  }

  /**
   * `contents` and `ids` line up index for index, each as long as the
   * corpus, and entry `i` of both comes from record `i`.
   */
  lemma CorpusAligned(records: seq<Record>)
    ensures |CorpusOf(records).contents| == |CorpusOf(records).ids| == |records|
    ensures forall i :: 0 <= i < |records| ==>
              CorpusOf(records).contents[i] == records[i].pageContent &&
              CorpusOf(records).ids[i] == CreateId(i, records[i].metadata.fillerId)
  {
  }

  /** With in-range categories, label `i` decodes to record `i`'s position and category. */
  lemma IdsDecode(records: seq<Record>, i: nat)
    requires CategoriesInRange(records) && i < |records|
    ensures GetFillerId(AssignIds(records)[i]) == records[i].metadata.fillerId
    ensures PositionOf(AssignIds(records)[i]) == i
  {
  }

  /**
   * With in-range categories the labels strictly increase, consecutive ones
   * by `100 + f[i+1] - f[i]`, between 1 and 199.
   */
  lemma {:induction false} IdsStrictlyIncreasing(records: seq<Record>)
    requires CategoriesInRange(records)
    ensures forall i, j :: 0 <= i < j < |records| ==> AssignIds(records)[i] < AssignIds(records)[j]
    ensures forall i :: 0 <= i < |records| - 1 ==>
              1 <= AssignIds(records)[i + 1] - AssignIds(records)[i] <= 2 * FillerSpan - 1
  {
    var ids := AssignIds(records);
    forall i, j | 0 <= i < j < |records| ensures ids[i] < ids[j] {
      assert ids[i] == i * FillerSpan + records[i].metadata.fillerId;
      assert ids[j] == j * FillerSpan + records[j].metadata.fillerId;
    }
    forall i | 0 <= i < |records| - 1 ensures 1 <= ids[i + 1] - ids[i] <= 2 * FillerSpan - 1 {
      assert ids[i] == i * FillerSpan + records[i].metadata.fillerId;
      assert ids[i + 1] == (i + 1) * FillerSpan + records[i + 1].metadata.fillerId;
    }
  }

  /** Folding in one more file appends its records. */
  lemma FlattenStep(files: seq<seq<Record>>, j: nat)
    requires j < |files|
    ensures Flatten(files[..j + 1]) == Flatten(files[..j]) + files[j]
  {
    assert files[..j + 1][..j] == files[..j];
  }

  /** The records of file `j1` all come before those of any later file `j2`. */
  lemma {:induction false} FlattenPrefixGrows(files: seq<seq<Record>>, j1: nat, j2: nat)
    requires j1 < j2 <= |files|
    ensures |Flatten(files[..j1])| + |files[j1]| <= |Flatten(files[..j2])|
  {
    FlattenStep(files, j2 - 1);
    if j1 < j2 - 1 {
      FlattenPrefixGrows(files, j1, j2 - 1);
    }
  }

  /**
   * Records of different files never share a label when categories are in
   * range: record `o1` of file `j1` and record `o2` of file `j2` get the
   * same label exactly when they are the same record.
   */
  lemma NoCollisionAcrossFiles(files: seq<seq<Record>>, j1: nat, o1: nat, j2: nat, o2: nat)
    requires CategoriesInRange(Flatten(files))
    requires j1 < |files| && o1 < |files[j1]| && j2 < |files| && o2 < |files[j2]|
    ensures var p1, p2 := |Flatten(files[..j1])| + o1, |Flatten(files[..j2])| + o2;
            && p1 < |Flatten(files)| && p2 < |Flatten(files)|
            && (AssignIds(Flatten(files))[p1] == AssignIds(Flatten(files))[p2] <==> j1 == j2 && o1 == o2)
  {
    FlattenAt(files, j1, o1);
    FlattenAt(files, j2, o2);
    IdsStrictlyIncreasing(Flatten(files));
    if j1 < j2 {
      FlattenPrefixGrows(files, j1, j2);
    } else if j2 < j1 {
      FlattenPrefixGrows(files, j2, j1);
    }
  }

  /** The source and the processed folders, as sets of file names. */
  class DataFolders {
    /** The files in the source folder (`baseDir`). */
    var toProcess: set<string>
    /** The files in `./data/processed`. */
    var processed: set<string>

    constructor (toProcess: set<string>, processed: set<string>)
      ensures this.toProcess == toProcess && this.processed == processed
    {
      this.toProcess := toProcess;
      this.processed := processed;
    }

    /** `fs.rename(baseDir/fileName, ./data/processed/fileName)`, overwriting a file of that name. */
    method Rename(fileName: string)
      requires fileName in toProcess
      modifies this
      ensures toProcess == old(toProcess) - {fileName}
      ensures processed == old(processed) + {fileName}
    {
      toProcess := toProcess - {fileName};
      processed := processed + {fileName};
    }
  }

  /**
   * The forEach of readAllFilesContent: `contents` gets each record's
   * `pageContent` and `ids` the label of its global position.
   */
  method NumberEntries(jsonContent: seq<Record>) returns (contents: seq<string>, ids: seq<int>)
    ensures contents == PageContents(jsonContent)
    ensures ids == AssignIds(jsonContent)
  {
    contents, ids := [], [];
    var index := 0;
    while index < |jsonContent|
      invariant 0 <= index <= |jsonContent|
      invariant |contents| == |ids| == index
      invariant forall k :: 0 <= k < index ==> contents[k] == jsonContent[k].pageContent
      invariant forall k :: 0 <= k < index ==> ids[k] == CreateId(k, jsonContent[k].metadata.fillerId)
    {
      var entry := jsonContent[index];
      contents := contents + [entry.pageContent];
      ids := ids + [CreateId(index, entry.metadata.fillerId)];
      index := index + 1;
    }
  }

  /**
   * The for-of loop of readAllFilesContent. The files are parsed in order,
   * and each file's records are appended before it is moved. The run stops
   * at `failed`, the first file that cannot be parsed, or at the end of the
   * list: exactly the files before `failed` have been folded in and moved.
   */
  method FoldFiles(folders: DataFolders, names: seq<string>, parse: string -> Option<seq<Record>>)
    returns (jsonContent: seq<Record>, failed: nat)
    requires Distinct(names)
    requires forall f :: f in names ==> f in folders.toProcess
    modifies folders
    ensures failed == FirstFailure(names, parse)
    ensures jsonContent == Flatten(ParsedFiles(names, parse, failed))
    ensures folders.toProcess == old(folders.toProcess) - FirstNames(names, failed)
    ensures folders.processed == old(folders.processed) + FirstNames(names, failed)
  {
    jsonContent := [];
    var i := 0;
    while i < |names|
      invariant 0 <= i <= FirstFailure(names, parse)
      invariant jsonContent == Flatten(ParsedFiles(names, parse, i))
      invariant folders.toProcess == old(folders.toProcess) - FirstNames(names, i)
      invariant folders.processed == old(folders.processed) + FirstNames(names, i)
    {
      var content := parse(names[i]);
      if content.None? {
        return jsonContent, i;
      }
      StillToProcess(names, i, old(folders.toProcess), folders.toProcess);
      FoldOneMore(names, parse, i);
      jsonContent := jsonContent + content.value;
      folders.Rename(names[i]);
      FirstNamesStep(names, i);
      i := i + 1;
    }
    failed := i;
  }

  /**
   * readAllFilesContent. The matching names of `listing` are processed in
   * order; file `k`, the first that cannot be parsed, aborts the run with
   * files `0..k-1` moved and file `k` and every later one still in the
   * source folder. When every file parses, all of them are moved and the
   * numbered corpus of their concatenated records is returned.
   */
  method ReadAllFilesContent(folders: DataFolders, listing: seq<string>, extension: string,
                             parse: string -> Option<seq<Record>>)
    returns (r: Result<Corpus, IngestError>)
    requires Distinct(listing)
    requires forall f :: f in listing ==> f in folders.toProcess
    modifies folders
    ensures var names := GetFilesInDirectory(listing, extension);
            && r == Ingest(names, parse)
            && folders.toProcess == old(folders.toProcess) - FirstNames(names, FirstFailure(names, parse))
            && folders.processed == old(folders.processed) + FirstNames(names, FirstFailure(names, parse))
  {
    var names := GetFilesInDirectory(listing, extension);
    FilterKeepsDistinct(listing, extension);
    var jsonContent, failed := FoldFiles(folders, names, parse);
    if failed < |names| {
      return Failure(Unparsable(names[failed]));
    }
    var contents, ids := NumberEntries(jsonContent);
    r := Success(Corpus(contents, ids));
  }

  /**
   * Before file `i` is moved it is still in the source folder: it was
   * there at the start, and only files before it, which differ from it,
   * have been moved.
   */
  lemma StillToProcess(names: seq<string>, i: nat, sourceBefore: set<string>, source: set<string>)
    requires Distinct(names) && i < |names|
    requires forall f :: f in names ==> f in sourceBefore
    requires source == sourceBefore - FirstNames(names, i)
    ensures names[i] in source
  {
    NotAmongEarlier(names, i);
    assert names[i] in names;
  }

  /** Parsing file `i` appends its records to those of the files before it. */
  lemma FoldOneMore(names: seq<string>, parse: string -> Option<seq<Record>>, i: nat)
    requires i < FirstFailure(names, parse)
    ensures Flatten(ParsedFiles(names, parse, i + 1))
         == Flatten(ParsedFiles(names, parse, i)) + parse(names[i]).value
  {
    var files := ParsedFiles(names, parse, i + 1);
    assert files[..i] == ParsedFiles(names, parse, i);
  }

  /** Moving file `i` adds its name to those of the files before it. */
  lemma FirstNamesStep(names: seq<string>, i: nat)
    requires i < |names|
    ensures FirstNames(names, i + 1) == FirstNames(names, i) + {names[i]}
  {
  }

  /** In a list without repeats, file `i` is none of the files before it. */
  lemma NotAmongEarlier(names: seq<string>, i: nat)
    requires Distinct(names) && i < |names|
    ensures names[i] !in FirstNames(names, i)
  {
  }

  /**
   * Once the first `i` of a list of distinct source files have been moved,
   * exactly those are in the processed folder and gone from the source;
   * file `i` and every later one are still in the source folder.
   */
  lemma MovedExactlyPrefix(names: seq<string>, i: nat, sourceBefore: set<string>, sourceAfter: set<string>,
                           processedBefore: set<string>, processedAfter: set<string>)
    requires Distinct(names) && i <= |names|
    requires forall f :: f in names ==> f in sourceBefore
    requires sourceAfter == sourceBefore - FirstNames(names, i)
    requires processedAfter == processedBefore + FirstNames(names, i)
    ensures forall j :: 0 <= j < i ==> names[j] !in sourceAfter && names[j] in processedAfter
    ensures forall j :: i <= j < |names| ==> names[j] in sourceAfter
  {
    forall j | 0 <= j < i ensures names[j] !in sourceAfter && names[j] in processedAfter {
      assert names[j] in FirstNames(names, i);
    }
  }
}
